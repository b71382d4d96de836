/** nsh_argument: cutting a command line into words, inside the line's own buffer.
    Configuration: no backslash quoting and no aliases; expansion of unquoted words is
    not part of this model, so a word comes back as its text before expansion together
    with the flag that forbids expanding it. */
module Tokenizer {
  import opened Wrappers
  import opened Sequences
  import opened CStrings

  // ---------- What a token is ----------

  predicate IsSeparator(c: char) {
    c == ' ' || c == '\t' || c == '\n'
  }

  predicate IsQuote(c: char) {
    c == '\'' || c == '"' || c == '`'
  }

  function IndexOf(s: seq<char>, c: char): (r: Option<nat>)
    ensures r.Some? ==> r.value < |s| && s[r.value] == c && c !in s[..r.value]
    ensures r.None? ==> c !in s
  {
    if s == [] then None
    else if s[0] == c then Some(0)
    else match IndexOf(s[1..], c)
      case None => None
      case Some(i) => Some(i + 1)
  }

  /** A word at the head of a string: its text, what follows its delimiter, and whether
      part of it was single-quoted. */
  datatype Scan = Unmatched | Scan(text: seq<char>, rest: seq<char>, squote: bool)

  function Before(text: seq<char>, squote: bool, s: Scan): Scan {
    if s.Unmatched? then s else Scan(text + s.text, s.rest, squote || s.squote)
  }

  /** Single and double quotes are dropped from a word, back-quotes kept; a separator
      inside any quotes does not end it. */
  function ScanWord(s: seq<char>): Scan
    decreases |s|
  {
    if s == [] then Scan([], [], false)
    else if IsQuote(s[0]) then
      match IndexOf(s[1..], s[0])
      case None => Unmatched
      case Some(i) =>
        Before(if s[0] == '`' then s[..i + 2] else s[1..i + 1], s[0] == '\'', ScanWord(s[i + 2..]))
    else if IsSeparator(s[0]) then Scan([], s[1..], false)
    else Before([s[0]], false, ScanWord(s[1..]))
  }

  function SkipSeparators(s: seq<char>): (r: seq<char>)
    ensures |r| <= |s| && (r != [] ==> !IsSeparator(r[0]))
  {
    if s != [] && IsSeparator(s[0]) then SkipSeparators(s[1..]) else s
  }

  datatype Token = End | Redirect(append: bool) | Comment | Bad | Word(text: seq<char>, squote: bool)

  /** The next token of a string, and the string after it. */
  function Next(s: seq<char>): (Token, seq<char>) {
    var t := SkipSeparators(s);
    if t == [] then (End, s)
    else if t[0] == '>' then
      if |t| > 1 && t[1] == '>' then (Redirect(true), t[2..]) else (Redirect(false), t[1..])
    else if t[0] == '#' then (Comment, t)
    else
      match ScanWord(t)
      case Unmatched => (Bad, s)
      case Scan(text, rest, squote) => (Word(text, squote), rest)
  }

  lemma {:induction false} ScanShortens(s: seq<char>)
    requires s != [] && !IsSeparator(s[0]) && ScanWord(s).Scan?
    ensures |ScanWord(s).rest| < |s|
    decreases |s|
  {
    ScanNoLonger(if IsQuote(s[0]) then s[IndexOf(s[1..], s[0]).value + 2..] else s[1..]);
  }

  lemma {:induction false} ScanNoLonger(s: seq<char>)
    ensures ScanWord(s).Scan? ==> |ScanWord(s).rest| <= |s|
    decreases |s|
  {
    if s != [] && IsQuote(s[0]) {
      match IndexOf(s[1..], s[0])
      case None =>
      case Some(i) => ScanNoLonger(s[i + 2..]);
    } else if s != [] && !IsSeparator(s[0]) {
      ScanNoLonger(s[1..]);
    }
  }

  /** All redirections and words of a string, up to its end, a comment, or an unmatched
      quote. */
  function Words(s: seq<char>): seq<Token>
    decreases |s|
  {
    match Next(s).0
    case Redirect(_) => [Next(s).0] + Words(Next(s).1)
    case Word(_, _) => ScanShortens(SkipSeparators(s)); [Next(s).0] + Words(Next(s).1)
    case _ => []
  }

  // ---------- Removing quotes in place ----------

  /** nsh_rmquotes: shift the text between the quotes down by one, what follows the
      closing quote by two. */
  method RmQuotes(buf: array<char>, qbegin: nat, qend: nat, ghost e: nat) returns (at: int)
    requires qbegin < qend < e && Ends(buf[..], qbegin, e)
    modifies buf
    ensures at == qend - 2
    ensures forall k :: 0 <= k < buf.Length && (k < qbegin || e - 1 <= k) ==> buf[k] == old(buf[k])
    ensures buf[qbegin..qend - 1] == old(buf[qbegin + 1..qend])
    ensures buf[qend - 1..e - 1] == old(buf[qend + 1..e + 1])
  {
    ghost var was := buf[..];
    var dst, ptr := qbegin, qbegin + 1;
    var done := false;
    while !done
      invariant qbegin <= dst <= ptr <= e + 1
      invariant ptr == dst + (if ptr <= qend then 1 else 2)
      invariant done <==> ptr == e + 1
      invariant forall k :: 0 <= k < buf.Length && (k < qbegin || dst <= k) ==> buf[k] == was[k]
      invariant forall k :: qbegin <= k < dst ==> buf[k] == was[if k + 1 < qend then k + 1 else k + 2]
      decreases e + 1 - ptr
    {
      if ptr == qend {
        ptr := ptr + 1;
      }
      var ch := buf[ptr];
      ptr := ptr + 1;
      buf[dst] := ch;
      dst := dst + 1;
      done := ch == NUL;
    }
    ShiftedDown(was, buf[..], qbegin, qend, e);
    at := qend - 2;
  }

  lemma ShiftedDown(was: seq<char>, now: seq<char>, qbegin: nat, qend: nat, e: nat)
    requires qbegin < qend < e < |was| == |now|
    requires forall k :: qbegin <= k < e - 1 ==> now[k] == was[if k + 1 < qend then k + 1 else k + 2]
    ensures now[qbegin..qend - 1] == was[qbegin + 1..qend]
    ensures now[qend - 1..e - 1] == was[qend + 1..e + 1]
  {
    Moved(was, now, qbegin, qend - 1, 1);
    Moved(was, now, qend - 1, e - 1, 2);
  }

  // ---------- nsh_argument ----------

  /** What nsh_argument returns: NULL, one of the two constant strings, or a pointer into
      the buffer with the flag that forbids expansion. */
  datatype Arg = Null | Constant(text: seq<char>) | At(ptr: nat, squote: bool)

  /** `a` and the saved pointer `next` are right for token `k` and the text `rest`. */
  ghost predicate Delivers(buf: seq<char>, a: Arg, save: nat, next: nat, k: Token, rest: seq<char>) {
    match k
    case End | Comment => a == Null && save <= next <= |buf| && Str(buf, next) == rest
    case Bad => a == Null && next == save
    case Redirect(append) =>
      a == Constant(if append then ">>" else ">") && save < next <= |buf| && Str(buf, next) == rest
    case Word(text, squote) =>
      && a.At? && a.squote == squote && save <= a.ptr
      && Ends(buf, a.ptr, a.ptr + |text|) && buf[a.ptr..a.ptr + |text|] == text
      && a.ptr + |text| <= next <= |buf| && Str(buf, next) == rest
  }

  lemma BeforeBefore(a: seq<char>, p: bool, b: seq<char>, q: bool, s: Scan)
    ensures Before(a, p, Before(b, q, s)) == Before(a + b, p || q, s)
  {
    if s.Scan? {
      assert a + (b + s.text) == (a + b) + s.text;
    }
  }

  lemma {:induction false} IndexOfIs(s: seq<char>, c: char, i: nat)
    requires i < |s| && s[i] == c && c !in s[..i]
    ensures IndexOf(s, c) == Some(i)
    decreases |s|
  {
    if i > 0 {
      assert s[0] == s[..i][0];
      assert s[1..][..i - 1] == s[..i][1..];
      IndexOfIs(s[1..], c, i - 1);
    }
  }

  lemma IndexOfNone(s: seq<char>, c: char)
    requires c !in s
    ensures IndexOf(s, c) == None
  {
  }

  lemma StrTerminates(s: seq<char>, i: nat)
    requires i <= |s| && Terminated(s, i)
    ensures Ends(s, i, i + |Str(s, i)|)
  {
    var e: nat :| Ends(s, i, e);
    StrIs(s, i, e);
  }

  /** Skip separators. */
  method FindBegin(buf: array<char>, save: nat, ghost e: nat) returns (pbegin: nat)
    requires Ends(buf[..], save, e)
    ensures save <= pbegin <= e && buf[pbegin..e] == SkipSeparators(Str(buf[..], save))
  {
    pbegin := save;
    StrIs(buf[..], save, e);
    while buf[pbegin] != NUL && IsSeparator(buf[pbegin])
      invariant save <= pbegin <= e && SkipSeparators(Str(buf[..], save)) == SkipSeparators(buf[pbegin..e])
      decreases e - pbegin
    {
      assert buf[pbegin..e][1..] == buf[pbegin + 1..e];
      pbegin := pbegin + 1;
    }
  }

  method NshArgument(buf: array<char>, save: nat) returns (arg: Arg, next: nat)
    requires save <= buf.Length && Terminated(buf[..], save)
    modifies buf
    ensures var s := old(Str(buf[..], save));
      && save + |s| < buf.Length
      && (forall k :: 0 <= k < buf.Length && (k < save || save + |s| <= k) ==> buf[k] == old(buf[k]))
      && next <= save + |s| && Terminated(buf[..], next)
      && Delivers(buf[..], arg, save, next, Next(s).0, Next(s).1)
  {
    hide Str, SkipSeparators, ScanWord;
    StrTerminates(buf[..], save);
    ghost var e := save + |Str(buf[..], save)|;
    var pbegin := FindBegin(buf, save, e);
    ghost var t := buf[pbegin..e];
    if buf[pbegin] == NUL {
      return Null, save;
    }
    if buf[pbegin] == '>' {
      if buf[pbegin + 1] == '>' {
        Leave(buf[..], pbegin, 2, e);
        return Constant(">>"), pbegin + 2;
      }
      Leave(buf[..], pbegin, 1, e);
      return Constant(">"), pbegin + 1;
    }
    if buf[pbegin] == '#' {
      Leave(buf[..], pbegin, 0, e);
      return Null, pbegin;
    }
    arg, next := WordInPlace(buf, save, pbegin, e);
  }

  lemma Leave(s: seq<char>, i: nat, n: nat, e: nat)
    requires Ends(s, i, e) && i + n <= e
    ensures Ends(s, i + n, e) && Str(s, i + n) == s[i..e][n..]
  {
    StrIs(s, i + n, e);
  }

  /** A word: scan it, then turn its delimiter into a terminator. */
  method WordInPlace(buf: array<char>, save: nat, pbegin: nat, ghost e: nat) returns (arg: Arg, next: nat)
    requires save <= pbegin < e && Ends(buf[..], save, e)
    modifies buf
    ensures forall k :: 0 <= k < buf.Length && (k < save || e <= k) ==> buf[k] == old(buf[k])
    ensures next <= e && Terminated(buf[..], next)
    ensures match ScanWord(old(buf[pbegin..e]))
      case Unmatched => arg == Null && next == save
      case Scan(text, rest, squote) =>
        && arg == At(pbegin, squote)
        && Ends(buf[..], pbegin, pbegin + |text|) && buf[pbegin..pbegin + |text|] == text
        && pbegin + |text| <= next && Str(buf[..], next) == rest
  {
    hide ScanWord, Str;
    var matched, pend, squote, f := ScanInPlace(buf, pbegin, e);
    if !matched {
      TerminatedAt(buf[..], save, f);
      return Null, save;
    }
    ghost var text := buf[pbegin..pend];
    next := pend;
    if buf[pend] != NUL {
      buf[pend] := NUL;
      next := pend + 1;
    }
    assert Ends(buf[..], next, f);
    StrIs(buf[..], next, f);
    assert buf[pbegin..pend] == text;
    arg := At(pbegin, squote);
  }

  // How ScanWord goes over the three kinds of characters.

  lemma ScanPlain(s: seq<char>)
    requires s != [] && !IsQuote(s[0]) && !IsSeparator(s[0])
    ensures ScanWord(s) == Before([s[0]], false, ScanWord(s[1..]))
  {
  }

  lemma ScanSeparator(s: seq<char>)
    requires s == [] || (!IsQuote(s[0]) && IsSeparator(s[0]))
    ensures ScanWord(s) == Scan([], if s == [] then [] else s[1..], false)
  {
  }

  lemma ScanQuoted(s: seq<char>, i: nat)
    requires s != [] && IsQuote(s[0]) && i + 1 < |s| && s[i + 1] == s[0] && s[0] !in s[1..i + 1]
    ensures ScanWord(s) ==
      Before(if s[0] == '`' then s[..i + 2] else s[1..i + 1], s[0] == '\'', ScanWord(s[i + 2..]))
  {
    assert s[1..][..i] == s[1..i + 1];
    IndexOfIs(s[1..], s[0], i);
  }

  lemma ScanUnmatched(s: seq<char>)
    requires s != [] && IsQuote(s[0]) && s[0] !in s[1..]
    ensures ScanWord(s) == Unmatched
  {
    IndexOfNone(s[1..], s[0]);
  }

  lemma BeforeNothing(s: Scan)
    ensures Before([], false, s) == s
  {
  }

  /** The loop of nsh_argument over one word.  Quotes are removed from the buffer while
      it is scanned, so the string shrinks under the scan, from `e` to `f`; afterwards the
      scanned part is the text of the word, and what follows it is still to be read. */
  method ScanInPlace(buf: array<char>, pbegin: nat, ghost e: nat)
    returns (matched: bool, pend: nat, squote: bool, ghost f: nat)
    requires Ends(buf[..], pbegin, e)
    modifies buf
    ensures forall k :: 0 <= k < buf.Length && (k < pbegin || e <= k) ==> buf[k] == old(buf[k])
    ensures f <= e && Ends(buf[..], pbegin, f)
    ensures !matched ==> ScanWord(old(buf[pbegin..e])) == Unmatched
    ensures matched ==> pbegin <= pend <= f
    ensures matched ==>
      ScanWord(old(buf[pbegin..e])) ==
      Scan(buf[pbegin..pend], if pend == f then [] else buf[pend + 1..f], squote)
  {
    hide ScanWord, Str, Before;
    ghost var word := buf[pbegin..e];
    f := e;
    pend, squote := pbegin, false;
    assert buf[pbegin..pbegin] == [];
    BeforeNothing(ScanWord(word));
    while buf[pend] != NUL
      invariant pbegin <= pend <= f <= e < buf.Length && Ends(buf[..], pbegin, f)
      invariant forall k :: 0 <= k < buf.Length && (k < pbegin || e <= k) ==> buf[k] == old(buf[k])
      invariant ScanWord(word) == Before(buf[pbegin..pend], squote, ScanWord(buf[pend..f]))
      decreases f - pend
    {
      var c := buf[pend];
      ghost var done, left, was, at := buf[pbegin..pend], buf[pend..f], buf[..], pend;
      if IsQuote(c) {
        ghost var part;
        matched, pend, f, part := TakeQuoted(buf, pend, f);
        if !matched {
          BeforeUnmatched(done, squote);
          return;
        }
        BeforeBefore(done, squote, part, c == '\'', ScanWord(buf[pend..f]));
        Joined(was, buf[..], pbegin, at, pend);
        assert buf[pbegin..pend] == done + part;
        squote := squote || c == '\'';
      } else if IsSeparator(c) {
        break;
      } else {
        ScanPlain(left);
        BeforeBefore(done, squote, [c], false, ScanWord(left[1..]));
        Joined(was, was, pbegin, pend, pend + 1);
        SliceOf(was, pend, f, 1, f - pend);
        assert buf[pbegin..pend + 1] == done + [c];
        assert buf[pend + 1..f] == left[1..];
        pend := pend + 1;
      }
    }
    matched := true;
    ScanSeparator(buf[pend..f]);
    assert pend < f ==> buf[pend..f][1..] == buf[pend + 1..f];
    BeforeScan(buf[pbegin..pend], squote, if pend == f then [] else buf[pend + 1..f]);
  }

  lemma BeforeUnmatched(text: seq<char>, squote: bool)
    ensures Before(text, squote, Unmatched) == Unmatched
  {
  }

  lemma BeforeScan(text: seq<char>, squote: bool, rest: seq<char>)
    ensures Before(text, squote, Scan([], rest, false)) == Scan(text, rest, squote)
  {
    assert text + [] == text;
  }

  lemma ShiftedEnds(s: seq<char>, i: nat, m: nat, e: nat)
    requires i <= m <= e < |s| && NUL !in s[i..m] && NUL !in s[m..e] && s[e] == NUL
    ensures Ends(s, i, e)
  {
    forall k | i <= k < e
      ensures s[k] != NUL
    {
      assert s[k] == if k < m then s[i..m][k - i] else s[m..e][k - m];
    }
  }

  /** One quoted part: find the closing quote and remove both, or keep back-quotes. */
  method TakeQuoted(buf: array<char>, pend: nat, ghost f: nat)
    returns (matched: bool, next: nat, ghost g: nat, ghost part: seq<char>)
    requires pend < f && Ends(buf[..], pend, f) && IsQuote(buf[pend])
    modifies buf
    ensures pend <= g <= f && forall k :: 0 <= k < buf.Length && (k < pend || f <= k) ==> buf[k] == old(buf[k])
    ensures Ends(buf[..], pend, g)
    ensures !matched ==> ScanWord(old(buf[pend..f])) == Unmatched
    ensures matched ==> pend <= next <= g && g - next < f - pend && buf[pend..next] == part
    ensures matched ==>
      ScanWord(old(buf[pend..f])) == Before(part, old(buf[pend]) == '\'', ScanWord(buf[next..g]))
  {
    hide ScanWord, Before, Str;
    var c := buf[pend];
    ghost var left := buf[pend..f];
    assert Ends(buf[..], pend + 1, f);
    StrIs(buf[..], pend + 1, f);
    assert left[1..] == buf[pend + 1..f];
    var qend;
    matched, qend := Strchr(buf, pend + 1, c);
    if !matched {
      ScanUnmatched(left);
      return false, pend, f, [];
    }
    ghost var i := qend - pend - 1;
    assert left[1..i + 1] == buf[pend + 1..qend];
    ScanQuoted(left, i);
    if c == '`' {
      assert buf[qend + 1..f] == left[i + 2..];
      return true, qend + 1, f, left[..i + 2];
    }
    next := DropQuotes(buf, pend, qend, f, left);
    return true, next, f - 2, left[1..i + 1];
  }

  /** Both quotes removed: the quoted text, then what follows it, then the terminator. */
  method DropQuotes(buf: array<char>, pend: nat, qend: nat, ghost f: nat, ghost left: seq<char>) returns (next: nat)
    requires pend < qend < f && Ends(buf[..], pend, f) && left == buf[pend..f]
    modifies buf
    ensures forall k :: 0 <= k < buf.Length && (k < pend || f <= k) ==> buf[k] == old(buf[k])
    ensures next == qend - 1 && Ends(buf[..], pend, f - 2)
    ensures buf[pend..next] == left[1..qend - pend] && buf[next..f - 2] == left[qend - pend + 1..]
  {
    ghost var was := buf[..];
    var last := RmQuotes(buf, pend, qend, f);
    QuotesDropped(was, buf[..], pend, qend, f, left);
    return last + 1;
  }

  lemma QuotesDropped(was: seq<char>, now: seq<char>, pend: nat, qend: nat, f: nat, left: seq<char>)
    requires pend < qend < f && Ends(was, pend, f) && left == was[pend..f] && |now| == |was|
    requires now[pend..qend - 1] == was[pend + 1..qend] && now[qend - 1..f - 1] == was[qend + 1..f + 1]
    ensures now[pend..qend - 1] == left[1..qend - pend] && now[qend - 1..f - 2] == left[qend - pend + 1..]
    ensures Ends(now, pend, f - 2)
  {
    var tail := now[qend - 1..f - 1];
    SliceOf(was, pend, f, 1, qend - pend);
    SliceOf(was, pend, f, qend - pend + 1, f - pend);
    SliceOf(was, qend + 1, f + 1, 0, f - qend - 1);
    SliceOf(now, qend - 1, f - 1, 0, f - qend - 1);
    assert left[qend - pend + 1..] == left[qend - pend + 1..f - pend];
    assert now[f - 2] == tail[f - qend - 1] == was[f];
    assert NUL !in left;
    ShiftedEnds(now, pend, qend - 1, f - 2);
  }
}
