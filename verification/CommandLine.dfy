/** nsh_parse: cutting a line into commands, and each command into its arguments, all in
    the line buffer (nsh_parse_command is reduced to collecting its arguments). */
module CommandLine {
  import opened Sequences
  import opened CStrings
  import opened Tokenizer

  // ---------- All arguments of a command ----------

  /** What an argument stands for: its text, and whether it may be expanded. */
  function Read(buf: seq<char>, a: Arg): Token
    requires a.At? ==> a.ptr <= |buf|
  {
    match a
    case Null => End
    case Constant(text) => Redirect(text == ">>")
    case At(ptr, squote) => Word(Str(buf, ptr), squote)
  }

  /** The arguments so far stay what they are while only bytes from `next` on change. */
  ghost predicate Settled(buf: seq<char>, args: seq<Arg>, lo: nat, next: nat)
    ensures Settled(buf, args, lo, next) ==> InBuffer(buf, args)
  {
    forall i :: 0 <= i < |args| ==> args[i].At? ==>
      lo <= args[i].ptr <= |buf| && args[i].ptr + |Str(buf, args[i].ptr)| <= next
      && Ends(buf, args[i].ptr, args[i].ptr + |Str(buf, args[i].ptr)|)
  }

  predicate InBuffer(buf: seq<char>, args: seq<Arg>) {
    forall i :: 0 <= i < |args| ==> args[i].At? ==> args[i].ptr <= |buf|
  }

  function Tokens(buf: seq<char>, args: seq<Arg>): seq<Token>
    requires InBuffer(buf, args)
  {
    seq(|args|, i requires 0 <= i < |args| => Read(buf, args[i]))
  }

  lemma StrSame(s: seq<char>, t: seq<char>, i: nat, e: nat)
    requires Ends(s, i, e) && |t| == |s| && forall k :: i <= k <= e ==> t[k] == s[k]
    ensures Ends(t, i, e) && Str(t, i) == Str(s, i)
  {
    StrIs(s, i, e);
    StrIs(t, i, e);
  }

  lemma SettledStays(s: seq<char>, t: seq<char>, args: seq<Arg>, lo: nat, next: nat)
    requires Settled(s, args, lo, next) && |t| == |s| && next < |s|
    requires forall k :: lo <= k < next ==> t[k] == s[k]
    requires s[next] == NUL ==> t[next] == NUL
    ensures Settled(t, args, lo, next) && Tokens(t, args) == Tokens(s, args)
  {
    forall i | 0 <= i < |args| && args[i].At?
      ensures Str(t, args[i].ptr) == Str(s, args[i].ptr)
      ensures Ends(t, args[i].ptr, args[i].ptr + |Str(s, args[i].ptr)|)
    {
      StrSame(s, t, args[i].ptr, args[i].ptr + |Str(s, args[i].ptr)|);
    }
  }

  lemma NextShortens(s: seq<char>)
    ensures var (k, rest) := Next(s); k.Redirect? || k.Word? ==> |rest| < |s|
  {
    var t := SkipSeparators(s);
    if t != [] && ScanWord(t).Scan? {
      ScanShortens(t);
    }
  }

  /** What a delivered argument says about the words of the rest. */
  lemma Delivered(buf: seq<char>, arg: Arg, save: nat, n: nat, rest: seq<char>)
    requires save <= |buf| && n <= |buf| && Delivers(buf, arg, save, n, Next(rest).0, Next(rest).1)
    ensures arg == Null ==> Words(rest) == []
    ensures arg.At? ==> save <= arg.ptr && Ends(buf, arg.ptr, arg.ptr + |Str(buf, arg.ptr)|)
                        && arg.ptr + |Str(buf, arg.ptr)| <= n
    ensures arg != Null ==> save <= n && |Str(buf, n)| < |rest|
    ensures arg != Null ==> Words(rest) == [Read(buf, arg)] + Words(Str(buf, n))
  {
    hide Next;
    NextShortens(rest);
    if arg.At? {
      StrIs(buf, arg.ptr, arg.ptr + |Next(rest).0.text|);
    }
  }

  /** One more argument: the words collected so far and those still ahead are the same. */
  lemma Collect(buf: seq<char>, args: seq<Arg>, arg: Arg, start: nat, save: nat, n: nat, rest: seq<char>)
    requires start <= save <= |buf| && n <= |buf| && arg != Null
    requires Settled(buf, args, start, save) && Delivers(buf, arg, save, n, Next(rest).0, Next(rest).1)
    ensures save <= n && Settled(buf, args + [arg], start, n) && |Str(buf, n)| < |rest|
    ensures Tokens(buf, args + [arg]) + Words(Str(buf, n)) == Tokens(buf, args) + Words(rest)
  {
    hide Next, Delivers, Words, Str, Read;
    Delivered(buf, arg, save, n, rest);
    assert Tokens(buf, args + [arg]) == Tokens(buf, args) + [Read(buf, arg)];
  }

  lemma Nothing(buf: seq<char>, lo: nat, next: nat)
    ensures Settled(buf, [], lo, next) && Tokens(buf, []) == []
  {
  }

  /** nsh_parse_command: nsh_argument until it returns NULL.  The pointers returned spell
      out the words of the command, and nothing past its terminator changes. */
  method Arguments(buf: array<char>, start: nat) returns (args: seq<Arg>, ghost next: nat)
    requires start <= buf.Length && Terminated(buf[..], start)
    modifies buf
    ensures var s := old(Str(buf[..], start));
      && start + |s| < buf.Length && next <= start + |s|
      && (forall k :: 0 <= k < buf.Length && (k < start || start + |s| <= k) ==> buf[k] == old(buf[k]))
      && Settled(buf[..], args, start, next)
      && Tokens(buf[..], args) == Words(s)
  {
    hide Str, Next, Words, Delivers, Settled, Tokens;
    Nothing(buf[..], start, start);
    ghost var s := Str(buf[..], start);
    StrTerminates(buf[..], start);
    ghost var e := start + |s|;
    args := [];
    var save := start;
    next := start;
    while true
      invariant start <= save <= e < buf.Length && next == save && Terminated(buf[..], save)
      invariant save + |Str(buf[..], save)| <= e && buf[e] == NUL
      invariant forall k :: 0 <= k < buf.Length && (k < start || e <= k) ==> buf[k] == old(buf[k])
      invariant Settled(buf[..], args, start, save)
      invariant Words(s) == Tokens(buf[..], args) + Words(Str(buf[..], save))
      decreases |Str(buf[..], save)|
    {
      ghost var was := buf[..];
      ghost var rest := Str(was, save);
      NextShortens(rest);
      StrTerminates(was, save);
      var arg, n := NshArgument(buf, save);
      SettledStays(was, buf[..], args, start, save);
      Delivered(buf[..], arg, save, n, rest);
      if arg == Null {
        break;
      }
      StrTerminates(buf[..], n);
      Collect(buf[..], args, arg, start, save, n, rest);
      args := args + [arg];
      save := n;
      next := n;
    }
  }

  // ---------- All commands of a line ----------

  /** Where a command ends: at `at`, with another command after it or not.  `working` is
      where the search for the end was last restarted, after a closing quote. */
  datatype Cut = Unclosed | Cut(at: nat, working: nat, more: bool)

  predicate IsLineSeparator(c: char) {
    c == '"' || c == '\'' || c == '#' || c == ';' || c == '\n'
  }

  function FindCut(s: seq<char>, working: nat, p: nat): (r: Cut)
    requires p <= |s|
    ensures r.Cut? ==> p <= r.at <= |s| && (r.more ==> r.at < |s| && s[r.at] == ';')
    decreases |s| - p
  {
    if p == |s| || s[p] == '#' || s[p] == '\n' then Cut(p, working, false)
    else if s[p] == ';' then Cut(p, working, true)
    else if s[p] == '"' || s[p] == '\'' then
      match IndexOf(s[p + 1..], s[p])
      case None => Unclosed
      case Some(i) => FindCut(s, p + 1 + i + 1, p + 1 + i + 1)
    else FindCut(s, working, p + 1)
  }

  /** A command as nsh_parse_command gets it, and np_loffs at that moment. */
  datatype Command = Command(text: seq<char>, loffs: nat)

  /** np_loffs has sixteen bits. */
  function Loffs(offset: nat): nat {
    offset % 0x10000
  }

  /** The commands of a line that begins `base` bytes into the buffer. */
  function Commands(s: seq<char>, base: nat): seq<Command>
    decreases |s|
  {
    match FindCut(s, 0, 0)
    case Unclosed => []
    case Cut(at, working, more) =>
      if more then [Command(s[..at], Loffs(base + working))] + Commands(s[at + 1..], base + at + 1)
      else [Command(s, Loffs(base + working))]
  }

  /** No quote is left open at the end of the line. */
  predicate Closed(s: seq<char>)
    decreases |s|
  {
    match FindCut(s, 0, 0)
    case Unclosed => false
    case Cut(at, _, more) => more ==> Closed(s[at + 1..])
  }

  /** strcspn with the line separators. */
  method Strcspn(buf: array<char>, working: nat, ghost e: nat) returns (ptr: nat)
    requires Ends(buf[..], working, e)
    ensures working <= ptr <= e && (ptr < e ==> IsLineSeparator(buf[ptr]))
    ensures forall k :: working <= k < ptr ==> !IsLineSeparator(buf[k])
  {
    ptr := working;
    while buf[ptr] != NUL && !IsLineSeparator(buf[ptr])
      invariant working <= ptr <= e && forall k :: working <= k < ptr ==> !IsLineSeparator(buf[k])
      decreases e - ptr
    {
      ptr := ptr + 1;
    }
  }

  lemma {:induction false} SkipPlain(s: seq<char>, working: nat, p: nat, q: nat)
    requires p <= q <= |s| && forall k :: p <= k < q ==> !IsLineSeparator(s[k])
    ensures FindCut(s, working, p) == FindCut(s, working, q)
    decreases q - p
  {
    if p < q {
      SkipPlain(s, working, p + 1, q);
    }
  }

  ghost predicate AllSettled(buf: seq<char>, argvs: seq<seq<Arg>>, lo: nat, next: nat)
    ensures AllSettled(buf, argvs, lo, next) ==> forall i :: 0 <= i < |argvs| ==> InBuffer(buf, argvs[i])
  {
    forall i :: 0 <= i < |argvs| ==> Settled(buf, argvs[i], lo, next)
  }

  /** The argument lists collected so far are the words of the commands `done`. */
  ghost predicate Collected(buf: seq<char>, argvs: seq<seq<Arg>>, loffs: seq<nat>, done: seq<Command>)
    requires forall i :: 0 <= i < |argvs| ==> InBuffer(buf, argvs[i])
  {
    && |argvs| == |loffs| == |done|
    && forall i :: 0 <= i < |argvs| ==> Tokens(buf, argvs[i]) == Words(done[i].text) && loffs[i] == done[i].loffs
  }

  lemma AllStays(s: seq<char>, t: seq<char>, argvs: seq<seq<Arg>>, loffs: seq<nat>, done: seq<Command>,
                 lo: nat, next: nat)
    requires AllSettled(s, argvs, lo, next) && Collected(s, argvs, loffs, done)
    requires |t| == |s| && next < |s| && (forall k :: lo <= k < next ==> t[k] == s[k])
    requires s[next] == NUL ==> t[next] == NUL
    ensures AllSettled(t, argvs, lo, next) && Collected(t, argvs, loffs, done)
  {
    forall i | 0 <= i < |argvs|
      ensures Settled(t, argvs[i], lo, next) && Tokens(t, argvs[i]) == Tokens(s, argvs[i])
    {
      SettledStays(s, t, argvs[i], lo, next);
    }
  }

  lemma OneMore(cs: seq<Command>, done: seq<Command>, c: Command, rest: seq<Command>)
    requires cs == done + ([c] + rest)
    ensures cs == (done + [c]) + rest && cs[..|done| + 1] == done + [c] && |cs| == |done| + 1 + |rest|
  {
  }

  // The three ways a line goes on from where the search stopped.

  lemma {:induction false} AtLast(line: seq<char>, base: nat, working: nat, p: nat)
    requires working <= p <= |line| && FindCut(line, 0, 0) == FindCut(line, working, p)
    requires p == |line| || line[p] == '#' || line[p] == '\n'
    ensures Commands(line, base) == [Command(line, Loffs(base + working))] && Closed(line)
  {
    assert FindCut(line, 0, 0) == Cut(p, working, false);
    hide FindCut, Loffs;
  }

  lemma {:induction false} AtSemicolon(line: seq<char>, base: nat, working: nat, p: nat)
    requires working <= p < |line| && FindCut(line, 0, 0) == FindCut(line, working, p) && line[p] == ';'
    ensures Commands(line, base) ==
      [Command(line[..p], Loffs(base + working))] + Commands(line[p + 1..], base + p + 1)
    ensures Closed(line) == Closed(line[p + 1..])
  {
    assert FindCut(line, 0, 0) == Cut(p, working, true);
    hide FindCut;
    CommandsStep(line, base, p, working);
    ClosedStep(line, p, working);
    hide Commands, Closed;
  }

  lemma {:induction false} CommandsStep(line: seq<char>, base: nat, p: nat, working: nat)
    requires p < |line| && FindCut(line, 0, 0) == Cut(p, working, true)
    ensures Commands(line, base) ==
      [Command(line[..p], Loffs(base + working))] + Commands(line[p + 1..], base + p + 1)
  {
    hide FindCut, Loffs;
  }

  lemma {:induction false} ClosedStep(line: seq<char>, p: nat, working: nat)
    requires p < |line| && FindCut(line, 0, 0) == Cut(p, working, true)
    ensures Closed(line) == Closed(line[p + 1..])
  {
    hide FindCut;
  }

  lemma AtQuote(line: seq<char>, working: nat, p: nat, found: bool, q: nat)
    requires working <= p < |line| && FindCut(line, 0, 0) == FindCut(line, working, p)
    requires line[p] == '"' || line[p] == '\''
    requires found ==> p < q < |line| && line[q] == line[p] && line[p] !in line[p + 1..q]
    requires !found ==> line[p] !in line[p + 1..]
    ensures found ==> FindCut(line, 0, 0) == FindCut(line, q + 1, q + 1)
    ensures !found ==> !Closed(line) && forall base :: Commands(line, base) == []
  {
    if found {
      assert line[p + 1..][..q - p - 1] == line[p + 1..q];
      IndexOfIs(line[p + 1..], line[p], q - p - 1);
    } else {
      IndexOfNone(line[p + 1..], line[p]);
    }
  }

  /** Go on after the closing quote. */
  method SkipQuoted(buf: array<char>, start: nat, working: nat, ptr: nat, ghost e: nat)
    returns (found: bool, after: nat)
    requires start <= working <= ptr < e && Ends(buf[..], start, e) && (buf[ptr] == '"' || buf[ptr] == '\'')
    requires FindCut(buf[start..e], 0, 0) == FindCut(buf[start..e], working - start, ptr - start)
    ensures found ==> ptr < after <= e
    ensures found ==> FindCut(buf[start..e], 0, 0) == FindCut(buf[start..e], after - start, after - start)
    ensures !found ==> !Closed(buf[start..e]) && forall base :: Commands(buf[start..e], base) == []
  {
    hide FindCut, Closed, Commands;
    assert Ends(buf[..], ptr + 1, e);
    StrIs(buf[..], ptr + 1, e);
    var at;
    found, at := Strchr(buf, ptr + 1, buf[ptr]);
    QuoteAhead(buf[..], start, working, ptr, e, found, at);
    after := if found then at + 1 else 0;
  }

  lemma QuoteAhead(buf: seq<char>, start: nat, working: nat, ptr: nat, e: nat, found: bool, at: nat)
    requires start <= working <= ptr < e < |buf| && (buf[ptr] == '"' || buf[ptr] == '\'')
    requires FindCut(buf[start..e], 0, 0) == FindCut(buf[start..e], working - start, ptr - start)
    requires found ==> ptr < at < e && buf[at] == buf[ptr] && buf[ptr] !in buf[ptr + 1..at]
    requires !found ==> buf[ptr] !in buf[ptr + 1..e]
    ensures var line := buf[start..e];
      && (found ==> FindCut(line, 0, 0) == FindCut(line, at + 1 - start, at + 1 - start))
      && (!found ==> !Closed(line) && forall base :: Commands(line, base) == [])
  {
    hide FindCut, Closed, Commands;
    var line := buf[start..e];
    SliceOf(buf, start, e, ptr - start + 1, if found then at - start else e - start);
    assert line[ptr - start + 1..e - start] == line[ptr - start + 1..];
    AtQuote(line, working - start, ptr - start, found, if found then at - start else 0);
  }

  /** nsh_parse_command on the command that ends at `t`: earlier argument lists stay what
      they are, and nothing from its terminator on changes. */
  method RunCommand(buf: array<char>, lo: nat, start: nat, offset: nat, argvs: seq<seq<Arg>>, loffs: seq<nat>,
                    ghost done: seq<Command>, ghost t: nat)
    returns (argvs': seq<seq<Arg>>, loffs': seq<nat>)
    requires lo <= start && Ends(buf[..], start, t)
    requires AllSettled(buf[..], argvs, lo, start) && Collected(buf[..], argvs, loffs, done)
    modifies buf
    ensures forall k :: 0 <= k < buf.Length && (k < start || t <= k) ==> buf[k] == old(buf[k])
    ensures AllSettled(buf[..], argvs', lo, t) && |argvs'| == |argvs| + 1
    ensures Collected(buf[..], argvs', loffs', done + [Command(old(buf[start..t]), offset)])
  {
    hide Str, Words, Settled, Tokens;
    ghost var was := buf[..];
    StrIs(was, start, t);
    var args, next := Arguments(buf, start);
    AllStays(was, buf[..], argvs, loffs, done, lo, start);
    forall i | 0 <= i < |argvs|
      ensures Settled(buf[..], argvs[i], lo, t)
    {
      SettledLater(buf[..], argvs[i], lo, lo, start, t);
    }
    SettledLater(buf[..], args, start, lo, next, t);
    return argvs + [args], loffs + [offset];
  }

  /** A command that ends with a semicolon: terminate it there and run it. */
  method RunUpTo(buf: array<char>, lo: nat, start: nat, ptr: nat, offset: nat, argvs: seq<seq<Arg>>, loffs: seq<nat>,
                 ghost done: seq<Command>, ghost e: nat)
    returns (argvs': seq<seq<Arg>>, loffs': seq<nat>)
    requires lo <= start <= ptr < e && Ends(buf[..], start, e)
    requires AllSettled(buf[..], argvs, lo, start) && Collected(buf[..], argvs, loffs, done)
    modifies buf
    ensures forall k :: 0 <= k < buf.Length && (k < start || ptr < k) ==> buf[k] == old(buf[k])
    ensures Ends(buf[..], ptr + 1, e) && buf[ptr + 1..e] == old(buf[start..e][ptr - start + 1..])
    ensures AllSettled(buf[..], argvs', lo, ptr + 1) && |argvs'| == |argvs| + 1
    ensures Collected(buf[..], argvs', loffs', done + [Command(old(buf[start..e][..ptr - start]), offset)])
  {
    hide AllSettled, Collected;
    ghost var was := buf[..];
    buf[ptr] := NUL;
    AllStays(was, buf[..], argvs, loffs, done, lo, start);
    assert buf[start..ptr] == was[start..e][..ptr - start];
    argvs', loffs' := RunCommand(buf, lo, start, offset, argvs, loffs, done, ptr);
    AllSettledLater(buf[..], argvs', lo, ptr, ptr + 1);
  }

  lemma SettledLater(buf: seq<char>, args: seq<Arg>, lo: nat, lo': nat, next: nat, next': nat)
    requires Settled(buf, args, lo, next) && lo' <= lo && next <= next'
    ensures Settled(buf, args, lo', next')
  {
  }

  lemma AllSettledLater(buf: seq<char>, argvs: seq<seq<Arg>>, lo: nat, next: nat, next': nat)
    requires AllSettled(buf, argvs, lo, next) && next <= next'
    ensures AllSettled(buf, argvs, lo, next')
  {
    hide Settled;
    forall i | 0 <= i < |argvs|
      ensures Settled(buf, argvs[i], lo, next')
    {
      SettledLater(buf, argvs[i], lo, lo, next, next');
    }
  }

  /** What a command of the line does: whether it returns OK, and whether it sets np_jump
      (as `done` does). */
  datatype Effect = Effect(ok: bool, jump: bool)

  /** The outcome of nsh_parse on the line `s`: for every command that was run, its
      arguments and np_loffs are those of the command; commands are run in order up to
      the first that fails or jumps; a command with an open quote, and what follows it, is
      not run.  The line succeeds if the last command that was run did, unless an open
      quote was met after it. */
  ghost predicate Outcome(buf: seq<char>, lo: nat, s: seq<char>, effect: nat -> Effect,
                          ok: bool, argvs: seq<seq<Arg>>, loffs: seq<nat>)
  {
    var cs := Commands(s, 0);
    && |argvs| <= |cs|
    && AllSettled(buf, argvs, lo, lo + |s|)
    && Collected(buf, argvs, loffs, cs[..|argvs|])
    && (forall k :: 0 <= k < |argvs| - 1 ==> effect(k) == Effect(true, false))
    && (|argvs| < |cs| ==> argvs != [] && effect(|argvs| - 1) != Effect(true, false))
    && (ok <==> argvs != [] && effect(|argvs| - 1).ok
                && (|argvs| < |cs| || Closed(s) || effect(|argvs| - 1).jump))
  }

  /** The outcome is still open: the line from `start` is ahead, and its first command
      does not end before `working`. */
  ghost predicate Underway(buf: seq<char>, lo: nat, s: seq<char>, effect: nat -> Effect, start: nat, working: nat,
                           argvs: seq<seq<Arg>>, loffs: seq<nat>, done: seq<Command>)
  {
    var e := lo + |s|;
    && lo <= start <= working <= e && Ends(buf, start, e)
    && AllSettled(buf, argvs, lo, start) && Collected(buf, argvs, loffs, done)
    && Commands(s, 0) == done + Commands(buf[start..e], start - lo)
    && Closed(s) == Closed(buf[start..e])
    && FindCut(buf[start..e], 0, 0) == FindCut(buf[start..e], working - start, working - start)
    && forall k :: 0 <= k < |argvs| ==> effect(k) == Effect(true, false)
  }

  /** nsh_parse.  `effect(k)` is what command `k` of the line does. */
  method NshParse(buf: array<char>, cmdline: nat, effect: nat -> Effect)
    returns (ok: bool, argvs: seq<seq<Arg>>, loffs: seq<nat>)
    requires cmdline <= buf.Length && Terminated(buf[..], cmdline)
    modifies buf
    ensures var s := old(Str(buf[..], cmdline));
      && cmdline + |s| < buf.Length
      && (forall k :: 0 <= k < buf.Length && (k < cmdline || cmdline + |s| <= k) ==> buf[k] == old(buf[k]))
      && Outcome(buf[..], cmdline, s, effect, ok, argvs, loffs)
  {
    hide Underway, Outcome;
    ghost var s := Str(buf[..], cmdline);
    var start, working := cmdline, cmdline;
    argvs, loffs := [], [];
    ghost var done: seq<Command> := [];
    Begin(buf[..], cmdline, effect);
    ok := false;
    var finished := false;
    while !finished
      invariant cmdline + |s| < buf.Length
      invariant forall k :: 0 <= k < buf.Length && (k < cmdline || cmdline + |s| <= k) ==> buf[k] == old(buf[k])
      invariant !finished ==> Underway(buf[..], cmdline, s, effect, start, working, argvs, loffs, done)
      invariant finished ==> Outcome(buf[..], cmdline, s, effect, ok, argvs, loffs)
      decreases !finished, cmdline + |s| - working
    {
      finished, ok, start, working, argvs, loffs, done :=
        ParseOn(buf, cmdline, effect, start, working, argvs, loffs, s, done);
    }
  }

  lemma Begin(buf: seq<char>, cmdline: nat, effect: nat -> Effect)
    requires cmdline <= |buf| && Terminated(buf, cmdline)
    ensures cmdline + |Str(buf, cmdline)| < |buf|
    ensures Underway(buf, cmdline, Str(buf, cmdline), effect, cmdline, cmdline, [], [], [])
  {
    hide Str;
    StrTerminates(buf, cmdline);
    StrIs(buf, cmdline, cmdline + |Str(buf, cmdline)|);
  }

  /** One turn of the loop of nsh_parse. */
  method ParseOn(buf: array<char>, cmdline: nat, effect: nat -> Effect, start: nat, working: nat,
                 argvs: seq<seq<Arg>>, loffs: seq<nat>, ghost s: seq<char>, ghost done: seq<Command>)
    returns (finished: bool, ok: bool, start': nat, working': nat,
             argvs': seq<seq<Arg>>, loffs': seq<nat>, ghost done': seq<Command>)
    requires Underway(buf[..], cmdline, s, effect, start, working, argvs, loffs, done)
    modifies buf
    ensures forall k :: 0 <= k < buf.Length && (k < cmdline || cmdline + |s| <= k) ==> buf[k] == old(buf[k])
    ensures finished ==> Outcome(buf[..], cmdline, s, effect, ok, argvs', loffs')
    ensures !finished ==> Underway(buf[..], cmdline, s, effect, start', working', argvs', loffs', done')
    ensures !finished ==> working < working' <= cmdline + |s|
  {
    hide Str, Words, Settled, Tokens, Commands, Closed, FindCut, AllSettled;
    finished, ok, start', working', argvs', loffs', done' := true, false, start, working, argvs, loffs, done;
    ghost var e := cmdline + |s|;
    ghost var line := buf[start..e];
    var offset := Loffs(working - cmdline);
    var ptr := Strcspn(buf, working, e);
    SkipPlain(line, working - start, working - start, ptr - start);
    if buf[ptr] == NUL || buf[ptr] == '\n' || buf[ptr] == '#' {
      AtLast(line, start - cmdline, working - start, ptr - start);
      argvs', loffs' := RunCommand(buf, cmdline, start, offset, argvs, loffs, done, e);
      OneMore(Commands(s, 0), done, Command(line, offset), []);
      ok := effect(|argvs'| - 1).ok;
    } else if buf[ptr] == ';' {
      finished, ok, argvs', loffs', done' :=
        ParseCommandAt(buf, cmdline, effect, start, working, ptr, argvs, loffs, s, done);
      start', working' := ptr + 1, ptr + 1;
    } else {
      var found, after := SkipQuoted(buf, start, working, ptr, e);
      if found {
        finished, working' := false, after;
      } else {
        AllSettledLater(buf[..], argvs, cmdline, start, e);
        assert Commands(s, 0)[..|argvs|] == done;
      }
    }
  }

  /** The branch for a semicolon at `ptr`. */
  method ParseCommandAt(buf: array<char>, cmdline: nat, effect: nat -> Effect, start: nat, working: nat, ptr: nat,
                        argvs: seq<seq<Arg>>, loffs: seq<nat>, ghost s: seq<char>, ghost done: seq<Command>)
    returns (finished: bool, ok: bool, argvs': seq<seq<Arg>>, loffs': seq<nat>, ghost done': seq<Command>)
    requires Underway(buf[..], cmdline, s, effect, start, working, argvs, loffs, done)
    requires working <= ptr < cmdline + |s| && buf[ptr] == ';'
    requires var line := buf[start..cmdline + |s|]; FindCut(line, 0, 0) == FindCut(line, working - start, ptr - start)
    modifies buf
    ensures forall k :: 0 <= k < buf.Length && (k < cmdline || cmdline + |s| <= k) ==> buf[k] == old(buf[k])
    ensures !finished ==> Underway(buf[..], cmdline, s, effect, ptr + 1, ptr + 1, argvs', loffs', done')
    ensures finished ==> Outcome(buf[..], cmdline, s, effect, ok, argvs', loffs')
  {
    hide Str, Words, Settled, Tokens, Commands, Closed, FindCut, AllSettled;
    ghost var e := cmdline + |s|;
    ghost var line := buf[start..e];
    var offset := Loffs(working - cmdline);
    AtSemicolon(line, start - cmdline, working - start, ptr - start);
    argvs', loffs' := RunUpTo(buf, cmdline, start, ptr, offset, argvs, loffs, done, e);
    ghost var c := Command(line[..ptr - start], offset);
    OneMore(Commands(s, 0), done, c, Commands(buf[ptr + 1..e], ptr + 1 - cmdline));
    done' := done + [c];
    ok := effect(|argvs'| - 1).ok;
    finished := !ok || effect(|argvs'| - 1).jump;
    if finished {
      AllSettledLater(buf[..], argvs', cmdline, ptr + 1, e);
    }
  }
}
