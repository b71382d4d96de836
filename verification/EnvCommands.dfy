/** set, unset and export (nsh_envcmds.c) over the two stores of names: the shell's own
    variables and the environment.  The environment is the C library's; it is a map here,
    and whether its calls succeed is an input. */
module EnvCommands {
  import opened Wrappers
  import opened CStrings
  import opened Variables
  import opened VariableStore

  type Env = map<seq<char>, seq<char>>

  // ---------- Trimming ----------

  predicate IsSpace(c: char) {
    c == ' ' || c == '\t' || c == '\n' || c == '\r' || c == 11 as char || c == 12 as char
  }

  /** The six characters that isspace knows in the C locale. */
  lemma SpaceIs(c: char)
    ensures IsSpace(c) <==> 9 <= c as int <= 13 || c as int == 32
  {
  }

  predicate AllSpace(s: seq<char>) {
    forall i :: 0 <= i < |s| ==> IsSpace(s[i])
  }

  /** `t` is `s` without the white space around it. */
  ghost predicate IsTrimmed(s: seq<char>, t: seq<char>) {
    && (t != [] ==> !IsSpace(t[0]) && !IsSpace(t[|t| - 1]))
    && exists a, b :: AllSpace(a) && AllSpace(b) && s == a + t + b
  }

  function Trim(s: seq<char>): seq<char> {
    if s != [] && IsSpace(s[0]) then Trim(s[1..])
    else if s != [] && IsSpace(s[|s| - 1]) then Trim(s[..|s| - 1])
    else s
  }

  lemma {:induction false} TrimSplit(s: seq<char>) returns (a: seq<char>, b: seq<char>)
    ensures AllSpace(a) && AllSpace(b) && s == a + Trim(s) + b
    ensures Trim(s) != [] ==> !IsSpace(Trim(s)[0]) && !IsSpace(Trim(s)[|Trim(s)| - 1])
    decreases |s|
  {
    TrimStep(s);
    hide IsSpace, Trim;
    if s != [] && IsSpace(s[0]) {
      var a';
      a', b := TrimSplit(s[1..]);
      a := [s[0]] + a';
      assert s == [s[0]] + s[1..];
    } else if s != [] && IsSpace(s[|s| - 1]) {
      var b';
      a, b' := TrimSplit(s[..|s| - 1]);
      b := b' + [s[|s| - 1]];
      assert s == s[..|s| - 1] + [s[|s| - 1]];
    } else {
      a, b := [], [];
    }
  }

  lemma TrimStep(s: seq<char>)
    ensures Trim(s) ==
      if s != [] && IsSpace(s[0]) then Trim(s[1..])
      else if s != [] && IsSpace(s[|s| - 1]) then Trim(s[..|s| - 1])
      else s
  {
  }

  lemma TrimIsTrimmed(s: seq<char>)
    ensures IsTrimmed(s, Trim(s))
  {
    hide Trim, IsSpace, AllSpace;
    var a, b := TrimSplit(s);
    assert s == a + Trim(s) + b;
  }

  lemma {:induction false} TrimBack(s: seq<char>, n: nat)
    requires n <= |s| && AllSpace(s[n..]) && (s == [] || !IsSpace(s[0]))
    ensures Trim(s) == Trim(s[..n])
    decreases |s|
  {
    if n < |s| {
      assert IsSpace(s[n..][|s| - 1 - n]);
      var t := s[..|s| - 1];
      assert t[n..] == s[n..][..|s| - 1 - n] && t[..n] == s[..n];
      TrimBack(t, n);
    } else {
      assert s[..n] == s;
    }
  }

  /** nsh_trimspaces: a pointer past the leading white space, the trailing overwritten. */
  method TrimSpaces(buf: array<char>, str: nat) returns (trimmed: nat)
    requires str <= buf.Length && Terminated(buf[..], str)
    modifies buf
    ensures trimmed <= buf.Length && Str(buf[..], trimmed) == Trim(old(Str(buf[..], str)))
    ensures Terminated(buf[..], trimmed)
  {
    ghost var e: nat :| Ends(buf[..], str, e);
    StrIs(buf[..], str, e);
    trimmed := str;
    while buf[trimmed] != NUL && IsSpace(buf[trimmed])
      invariant str <= trimmed <= e && Trim(Str(buf[..], str)) == Trim(buf[trimmed..e])
      decreases e - trimmed
    {
      assert buf[trimmed..e][1..] == buf[trimmed + 1..e];
      trimmed := trimmed + 1;
    }
    TrimTail(buf, trimmed, e);
  }

  method TrimTail(buf: array<char>, trimmed: nat, ghost e: nat)
    requires Ends(buf[..], trimmed, e) && (trimmed == e || !IsSpace(buf[trimmed]))
    modifies buf
    ensures Str(buf[..], trimmed) == Trim(old(buf[trimmed..e])) && Terminated(buf[..], trimmed)
  {
    hide Str, Trim;
    ghost var t := buf[trimmed..e];
    var ndx := StrLen(buf, trimmed, e);
    while ndx > 0 && IsSpace(buf[trimmed + ndx - 1])
      invariant 0 <= ndx <= |t| && AllSpace(t[ndx..])
      invariant trimmed + ndx < buf.Length && buf[trimmed..trimmed + ndx] == t[..ndx] && buf[trimmed + ndx] == NUL
    {
      assert buf[trimmed + ndx - 1] == buf[trimmed..trimmed + ndx][ndx - 1] == t[ndx - 1];
      assert t[ndx - 1..] == [t[ndx - 1]] + t[ndx..];
      ndx := ndx - 1;
      buf[trimmed + ndx] := NUL;
    }
    TrimBack(t, ndx);
    TrimDone(t[..ndx]);
    TerminatedAt(buf[..], trimmed, trimmed + ndx);
    NoNulPrefix(buf[..], trimmed, t, ndx);
    StrIs(buf[..], trimmed, trimmed + ndx);
  }

  lemma TrimDone(s: seq<char>)
    requires s == [] || (!IsSpace(s[0]) && !IsSpace(s[|s| - 1]))
    ensures Trim(s) == s
  {
  }

  lemma NoNulPrefix(buf: seq<char>, i: nat, t: seq<char>, n: nat)
    requires n <= |t| && NUL !in t && i + n < |buf| && buf[i..i + n] == t[..n] && buf[i + n] == NUL
    ensures Ends(buf, i, i + n)
  {
    forall k | i <= k < i + n
      ensures buf[k] != NUL
    {
      assert buf[k] == buf[i..i + n][k - i] == t[k - i];
    }
  }

  // ---------- What the commands do ----------

  datatype Names = Names(vars: seq<Binding>, env: Env)

  /** The name of the built-in variable. */
  const EXIT_STATUS: seq<char> := "?"

  function Status(fail: bool): seq<char> {
    if fail then "1" else "0"
  }

  /** What $name expands to: `$?` is whether the last command failed; any other name is a
      shell variable, else it comes from the environment, else it is nothing. */
  function Visible(s: Names, fail: bool, name: seq<char>): seq<char> {
    if name == EXIT_STATUS then Status(fail)
    else match Get(s.vars, name)
      case Some(v) => v
      case None => if name in s.env then s.env[name] else []
  }

  datatype Command =
    | SetName(name: seq<char>, arg: seq<char>, memory: bool, envOk: bool)
    | UnsetName(name: seq<char>, envOk: bool)
    | Export(name: seq<char>, given: Option<seq<char>>, envOk: bool)

  /** What the C strings of a command allow. */
  predicate GivenCommand(c: Command) {
    && NUL !in c.name
    && (c.SetName? ==> NUL !in c.arg)
    && (c.Export? && c.given.Some? ==> NUL !in c.given.value)
  }

  /** The variable that set stores. */
  function Setting(c: Command): (op: Op)
    requires GivenCommand(c) && c.SetName?
    ensures Given(op)
  {
    TrimNoNul(c.arg);
    Set(c.name, Trim(c.arg), c.memory)
  }

  /** set goes to the environment when the name has been exported. */
  function Execute(s: Names, c: Command): Names
    requires GivenCommand(c)
  {
    match c
    case SetName(name, arg, _, envOk) =>
      if name !in s.env then s.(vars := Apply(s.vars, Setting(c)))
      else if envOk then s.(env := s.env[name := Trim(arg)])
      else s
    case UnsetName(name, envOk) =>
      Names(Without(s.vars, name), if envOk then s.env - {name} else s.env)
    case Export(name, arg, envOk) =>
      if envOk then Names(Without(s.vars, name), s.env[name := Exported(s, name, arg)]) else s
  }

  function Exported(s: Names, name: seq<char>, arg: Option<seq<char>>): seq<char> {
    match arg
    case Some(v) => v
    case None => match Get(s.vars, name)
      case Some(v) => v
      case None => []
  }

  predicate LegalCommand(c: Command) {
    GivenCommand(c) && IsName(c.name)
  }

  ghost predicate Disjoint(s: Names) {
    Store(s.vars) && forall i :: 0 <= i < |s.vars| ==> s.vars[i].name !in s.env
  }

  lemma {:induction false} TrimNoNul(s: seq<char>)
    requires NUL !in s
    ensures NUL !in Trim(s)
  {
    TrimIsTrimmed(s);
    var a, b :| AllSpace(a) && AllSpace(b) && s == a + Trim(s) + b;
    forall c | c in Trim(s)
      ensures c in s
    {
    }
  }

  /** Fewer variables, and no new environment name that one of them has. */
  lemma FewerDisjoint(s: Names, t: Names)
    requires Disjoint(s) && Store(t.vars) && forall b :: b in t.vars ==> b in s.vars
    requires forall n :: n in t.env && n !in s.env ==> forall b :: b in t.vars ==> b.name != n
    ensures Disjoint(t)
  {
    hide Proper;
    forall i | 0 <= i < |t.vars|
      ensures t.vars[i].name !in t.env
    {
      var b := t.vars[i];
      assert b in t.vars && b in s.vars;
      var k :| 0 <= k < |s.vars| && s.vars[k] == b;
    }
  }

  lemma WithoutNames(es: seq<Binding>, name: seq<char>)
    requires Store(es)
    ensures var fs := Without(es, name);
      Store(fs) && (forall b :: b in fs ==> b in es) && forall b :: b in fs ==> b.name != name
  {
    hide Matches;
    StoreWithout(es, name);
    forall b | b in Without(es, name)
      ensures b in es && b.name != name
    {
      InWithout(es, name, b);
      if IsName(name) {
        FindName(Without(es, name), name);
      }
    }
  }

  /** A binding more. */
  lemma MoreDisjoint(s: Names, b: Binding)
    requires Disjoint(s) && Proper(b)
    ensures Disjoint(s.(vars := s.vars + [b])) <==> b.name !in s.env && Get(s.vars, b.name) == None
  {
    hide Get;
    var all := s.vars + [b];
    assert all[|s.vars|] == b && forall k :: 0 <= k < |s.vars| ==> all[k] == s.vars[k];
    if Get(s.vars, b.name).Some? {
      var v := Get(s.vars, b.name).value;
      GetIff(s.vars, b.name, v);
      var k :| 0 <= k < |s.vars| && s.vars[k] == Binding(b.name, v);
      assert all[k].name == all[|s.vars|].name;
    } else {
      forall k | 0 <= k < |s.vars|
        ensures s.vars[k].name != b.name
      {
        StoredIsFound(s.vars, k);
      }
    }
  }

  lemma StoredIsFound(es: seq<Binding>, i: nat)
    requires Store(es) && i < |es|
    ensures Get(es, es[i].name) == Some(es[i].value)
  {
    GetIff(es, es[i].name, es[i].value);
    assert es[i] == Binding(es[i].name, es[i].value);
  }

  /** What can give a name to both stores, or twice to one: a name with `=` whose head, the
      part before the first `=`, is exported, or has a pair that the name does not match. */
  ghost predicate AddsForeign(s: Names, c: Command)
    requires GivenCommand(c)
  {
    && c.SetName? && c.memory && c.name !in s.env && !IsName(c.name)
    && (Head(c.name) in s.env || (Find(s.vars, c.name).None? && Get(s.vars, Head(c.name)).Some?))
  }

  /** Exactly the other commands keep the two stores disjoint; and so does every command on
      a name without `=`. */
  lemma DisjointKeptIff(s: Names, c: Command)
    requires Disjoint(s) && GivenCommand(c)
    ensures Disjoint(Execute(s, c)) <==> !AddsForeign(s, c)
    ensures LegalCommand(c) ==> Disjoint(Execute(s, c))
  {
    hide Disjoint, Find, Get, Trim, Without, IsName, Bound;
    assert Store(s.vars) by { DisjointStore(s); }
    WithoutNames(s.vars, c.name);
    var fs := Without(s.vars, c.name);
    match c
    case SetName(name, arg, memory, envOk) =>
      if name in s.env {
        FewerDisjoint(s, Execute(s, c));
      } else {
        FewerDisjoint(s, s.(vars := fs));
        if memory {
          var b := Bound(name, Trim(arg)) by { TrimNoNul(arg); }
          SettingAdds(s, c);
        } else {
          assert fs + [] == fs;
        }
      }
    case UnsetName(name, envOk) =>
      FewerDisjoint(s, Execute(s, c));
    case Export(name, arg, envOk) =>
      FewerDisjoint(s, Execute(s, c));
  }

  lemma DisjointStore(s: Names)
    requires Disjoint(s)
    ensures Store(s.vars)
  {
  }

  /** A set with enough memory, of a name that is not exported. */
  lemma SettingAdds(s: Names, c: Command)
    requires Disjoint(s) && GivenCommand(c) && c.SetName? && c.memory && c.name !in s.env
    requires Disjoint(s.(vars := Without(s.vars, c.name)))
    ensures Disjoint(Execute(s, c)) <==> !AddsForeign(s, c)
  {
    hide Find, Get, Without, Matches;
    var (op, fs) := (Setting(c), Without(s.vars, c.name));
    var b := Bound(op.name, op.value);
    BoundHead(op.name, op.value);
    assert IsName(b.name);
    MoreDisjoint(s.(vars := fs), b);
    GetWithout(s.vars, c.name, b.name);
    if !IsName(c.name) {
      Foreign(s.vars, c.name);
    }
  }

  function Session(s: Names, cs: seq<Command>): Names
    requires forall i :: 0 <= i < |cs| ==> GivenCommand(cs[i])
    decreases |cs|
  {
    if cs == [] then s else Session(Execute(s, cs[0]), cs[1..])
  }

  /** No command of a session adds a foreign name where it stands. */
  ghost predicate Clean(s: Names, cs: seq<Command>)
    requires forall i :: 0 <= i < |cs| ==> GivenCommand(cs[i])
    decreases |cs|
  {
    cs == [] || (!AddsForeign(s, cs[0]) && Clean(Execute(s, cs[0]), cs[1..]))
  }

  /** The stores are disjoint all along. */
  ghost predicate DisjointThroughout(s: Names, cs: seq<Command>)
    requires forall i :: 0 <= i < |cs| ==> GivenCommand(cs[i])
    decreases |cs|
  {
    Disjoint(s) && (cs == [] || DisjointThroughout(Execute(s, cs[0]), cs[1..]))
  }

  /** For every session, whatever names it uses: the stores stay disjoint exactly when no
      command adds a foreign name. */
  lemma {:induction false} SessionDisjointIff(s: Names, cs: seq<Command>)
    requires Disjoint(s) && forall i :: 0 <= i < |cs| ==> GivenCommand(cs[i])
    ensures DisjointThroughout(s, cs) <==> Clean(s, cs)
    decreases |cs|
  {
    hide Execute, Disjoint, AddsForeign;
    if cs != [] {
      DisjointKeptIff(s, cs[0]);
      var t := Execute(s, cs[0]);
      if Disjoint(t) {
        SessionDisjointIff(t, cs[1..]);
      } else {
        assert !DisjointThroughout(t, cs[1..]);
      }
    }
  }

  /** A session on names without `=` adds no foreign name. */
  lemma {:induction false} PlainNamesAreClean(s: Names, cs: seq<Command>)
    requires forall i :: 0 <= i < |cs| ==> GivenCommand(cs[i]) && IsName(cs[i].name)
    ensures Clean(s, cs)
    decreases |cs|
  {
    hide Execute;
    if cs != [] {
      PlainNamesAreClean(Execute(s, cs[0]), cs[1..]);
    }
  }

  lemma {:induction false} SessionKeepsDisjoint(s: Names, cs: seq<Command>)
    requires Disjoint(s) && (forall i :: 0 <= i < |cs| ==> GivenCommand(cs[i])) && Clean(s, cs)
    ensures Disjoint(Session(s, cs))
    decreases |cs|
  {
    hide Execute, Disjoint, AddsForeign;
    if cs != [] {
      DisjointKeptIff(s, cs[0]);
      SessionKeepsDisjoint(Execute(s, cs[0]), cs[1..]);
    }
  }

  lemma NotInBoth(s: Names, name: seq<char>)
    requires Disjoint(s) && IsName(name) && name in s.env
    ensures Get(s.vars, name) == None && Find(s.vars, name) == None
  {
    hide Matches, Proper;
    FindName(s.vars, name);
  }

  /** So it makes no difference which store is asked first. */
  lemma LookupOrderImmaterial(s: Names, cs: seq<Command>, fail: bool, name: seq<char>)
    requires IsName(name) && Disjoint(s) && (forall i :: 0 <= i < |cs| ==> GivenCommand(cs[i])) && Clean(s, cs)
    ensures var t := Session(s, cs);
      Visible(t, fail, name) ==
        if name == EXIT_STATUS then Status(fail)
        else if name in t.env then t.env[name] else Get(t.vars, name).GetOr([])
  {
    hide Session, Disjoint, Get, Clean;
    SessionKeepsDisjoint(s, cs);
    if name in Session(s, cs).env {
      NotInBoth(Session(s, cs), name);
    }
  }

  /** A command changes what its own name expands to, and no other name. */
  lemma OthersUntouched(s: Names, c: Command, fail: bool, name: seq<char>)
    requires Disjoint(s) && LegalCommand(c) && IsName(name) && name != c.name
    ensures Visible(Execute(s, c), fail, name) == Visible(s, fail, name)
  {
    hide Get, Find, Matches, Without, Apply, Bound, Trim, Disjoint;
    DisjointStore(s);
    GetWithout(s.vars, c.name, name);
    if c.SetName? {
      GetSet(s.vars, Setting(c), name);
    }
  }

  /** What a command on a name with `=` leaves visible of the name's head: a pair removed
      must have shown nothing; a pair added must be hidden behind another one of that name,
      or show what was shown before. */
  ghost predicate KeepsHead(s: Names, c: Command, fail: bool)
    requires GivenCommand(c)
  {
    var shown := Visible(s, fail, Head(c.name));
    var removesNothing := Find(s.vars, c.name).None? || shown == [];
    match c
    case SetName(name, _, memory, _) =>
      if name in s.env then true
      else if !memory then removesNothing
      else (Find(s.vars, name).None? && Get(s.vars, Head(name)).Some?)
           || shown == Bound(name, Setting(c).value).value
    case UnsetName(_, _) => removesNothing
    case Export(_, _, envOk) => envOk ==> removesNothing
  }

  /** For every command, whatever its name: the other names keep what they expand to exactly
      when its name has no `=`, or begins with `?=`, or its head keeps what it expands to. */
  lemma OthersUntouchedIff(s: Names, c: Command, fail: bool)
    requires Disjoint(s) && GivenCommand(c)
    ensures (forall n :: IsName(n) && n != c.name ==> Visible(Execute(s, c), fail, n) == Visible(s, fail, n)) <==>
      IsName(c.name) || Head(c.name) == EXIT_STATUS || KeepsHead(s, c, fail)
  {
    if IsName(c.name) {
      forall n | IsName(n) && n != c.name
        ensures Visible(Execute(s, c), fail, n) == Visible(s, fail, n)
      {
        OthersUntouched(s, c, fail, n);
      }
    } else {
      DisjointStore(s);
      Foreign(s.vars, c.name);
      hide Execute, Disjoint, KeepsHead, Visible;
      forall n | IsName(n) && n != Head(c.name)
        ensures Visible(Execute(s, c), fail, n) == Visible(s, fail, n)
      {
        AsidesUntouched(s, c, fail, n);
      }
      HeadShown(s, c, fail);
    }
  }

  /** Names other than the head. */
  lemma AsidesUntouched(s: Names, c: Command, fail: bool, n: seq<char>)
    requires Disjoint(s) && GivenCommand(c) && !IsName(c.name) && IsName(n) && n != Head(c.name)
    ensures Visible(Execute(s, c), fail, n) == Visible(s, fail, n)
  {
    hide Get, Find, Matches, Without, Bound, Apply, Disjoint;
    DisjointStore(s);
    Foreign(s.vars, c.name);
    GetWithout(s.vars, c.name, n);
    if c.SetName? {
      GetApplied(s.vars, Setting(c), n);
      BoundHead(c.name, Setting(c).value);
    }
  }

  lemma HeadShown(s: Names, c: Command, fail: bool)
    requires Disjoint(s) && GivenCommand(c) && !IsName(c.name)
    ensures var h := Head(c.name);
      Visible(Execute(s, c), fail, h) == Visible(s, fail, h) <==> h == EXIT_STATUS || KeepsHead(s, c, fail)
  {
    hide Get, Find, Matches, Without, Bound, Apply, Disjoint;
    var h := Head(c.name);
    DisjointStore(s);
    Foreign(s.vars, c.name);
    GetWithout(s.vars, c.name, h);
    if h in s.env {
      NotInBoth(s, h);
    }
    if c.SetName? {
      GetApplied(s.vars, Setting(c), h);
      BoundHead(c.name, Setting(c).value);
    }
  }

  lemma GetSet(es: seq<Binding>, op: Op, n: seq<char>)
    requires Store(es) && Legal(op) && IsName(n)
    ensures Get(Apply(es, op), n) ==
      if n != op.name then Get(es, n) else if op.Set? && op.memory then Some(op.value) else None
  {
    hide Get, Find, Matches, Apply, Bound;
    GetApplied(es, op, n);
    NameGone(es, op.name);
    if op.Set? {
      BoundIs(op);
    }
  }

  /** set: the trimmed value becomes visible; if the shell's buffer cannot grow the name
      is lost, if the environment cannot grow it keeps its value.  Setting `?` shows nothing
      of this: `$?` stays the exit status. */
  lemma SetIsVisible(s: Names, c: Command, fail: bool)
    requires Disjoint(s) && LegalCommand(c) && c.SetName?
    ensures Visible(Execute(s, c), fail, c.name) ==
      if c.name == EXIT_STATUS then Status(fail)
      else if c.name in s.env then if c.envOk then Trim(c.arg) else s.env[c.name]
      else if c.memory then Trim(c.arg) else []
  {
    GetSet(s.vars, Setting(c), c.name);
    if c.name in s.env {
      NotInBoth(s, c.name);
    }
  }

  /** With memory enough, the trimmed value is what becomes visible exactly when the name is
      not `?`, or the value happens to be the exit status. */
  lemma SetShowsIff(s: Names, c: Command, fail: bool)
    requires Disjoint(s) && LegalCommand(c) && c.SetName? && c.memory && c.envOk
    ensures Visible(Execute(s, c), fail, c.name) == Trim(c.arg) <==>
      c.name != EXIT_STATUS || Trim(c.arg) == Status(fail)
  {
    SetIsVisible(s, c, fail);
  }

  /** One input: `set ? 5` stores a variable that no lookup shows. */
  lemma SetOfStatus(fail: bool)
    ensures var c := SetName("?", "5", true, true);
      var t := Execute(Names([], map[]), c);
      GivenCommand(c) && Get(t.vars, "?") == Some("5") && Visible(t, fail, "?") == Status(fail) != "5"
  {
    var c := SetName("?", "5", true, true);
    TrimDone("5");
    GetSet([], Setting(c), "?");
  }

  /** unset: the shell's variable is gone in any case, the environment's unless unsetenv fails,
      and the name shows nothing any more unless that failure leaves a value to show. */
  lemma UnsetIsGone(s: Names, c: Command, fail: bool)
    requires Store(s.vars) && GivenCommand(c) && c.UnsetName?
    ensures var t := Execute(s, c);
      && Get(t.vars, c.name) == None
      && (c.envOk ==> c.name !in t.env && forall n :: n in t.env <==> n in s.env && n != c.name)
      && (!c.envOk ==> t.env == s.env)
      && Visible(t, fail, c.name) ==
         if c.name == "?" then if fail then "1" else "0"
         else if !c.envOk && c.name in s.env then s.env[c.name]
         else ""
  {
    NothingLeft(s.vars, c.name);
    assert |""| == 0;
  }

  /** A name matches at most one pair of a store. */
  lemma NothingLeft(es: seq<Binding>, name: seq<char>)
    requires Store(es) && NUL !in name
    ensures Find(Without(es, name), name) == None
  {
    hide Matches, Proper;
    var fs := Without(es, name);
    StoreWithout(es, name);
    if !IsName(name) && Find(fs, name).Some? {
      Foreign(es, name);
      Foreign(fs, name);
      GetWithout(es, name, Head(name));
    }
  }

  /** export of a name without a value moves a shell variable to the environment.  It
      keeps what the name expands to exactly when the name is `?`, or is not an environment
      variable already, or is an empty one: exporting a name twice empties it. */
  lemma ExportKeepsValue(s: Names, c: Command, fail: bool)
    requires Disjoint(s) && LegalCommand(c) && c.Export? && c.given.None? && c.envOk
    ensures c.name in Execute(s, c).env && Get(Execute(s, c).vars, c.name) == None
    ensures Visible(Execute(s, c), fail, c.name) == Visible(s, fail, c.name) <==>
      c.name == EXIT_STATUS || !(c.name in s.env && s.env[c.name] != [])
  {
    GetWithout(s.vars, c.name, c.name);
    if c.name in s.env {
      NotInBoth(s, c.name);
    }
  }

  /** Every export, of any name: if setenv succeeds the name shows the given text as it is, or
      without one what the shell variable of that name held, if there was one; if setenv fails
      both stores are as they were.  `$?` shows the exit status in any case. */
  lemma ExportShows(s: Names, c: Command, fail: bool)
    requires Store(s.vars) && GivenCommand(c) && c.Export?
    ensures !c.envOk ==> Execute(s, c) == s
    ensures c.envOk ==> Get(Execute(s, c).vars, c.name) == None && c.name in Execute(s, c).env
    ensures Visible(Execute(s, c), fail, c.name) ==
      if c.name == "?" then if fail then "1" else "0"
      else if !c.envOk then Visible(s, fail, c.name)
      else if c.given.Some? then c.given.value
      else if Get(s.vars, c.name).Some? then Get(s.vars, c.name).value
      else ""
  {
    NothingLeft(s.vars, c.name);
    assert |""| == 0;
  }

  /** The two texts of `$?`. */
  lemma ExitStatusShown(s: Names, fail: bool)
    ensures Visible(s, fail, "?") == "1" <==> fail
    ensures Visible(s, fail, "?") == "0" <==> !fail
  {
    assert "1"[0] != "0"[0];
  }

  /** Two exports in a row, on a concrete name. */
  lemma ExportTwiceEmpties(value: seq<char>, fail: bool)
    requires NUL !in value && value != []
    ensures var again := Export("X", None, true);
      var start := Names([Binding("X", value)], map[]);
      && Visible(Session(start, [again]), fail, "X") == value
      && Visible(Session(start, [again, again]), fail, "X") == []
  {
    var again := Export("X", None, true);
    var start := Names([Binding("X", value)], map[]);
    var once := Execute(start, again);
    assert [again, again][1..] == [again] && [again][1..] == [];
    ExportKeepsValue(start, again, fail);
    ExportKeepsValue(once, again, fail);
    assert Visible(start, fail, "X") == value;
    assert Session(once, [again]) == Execute(once, again);
  }

  // ---------- The commands as they update the stores ----------

  class Shell {
    const vars: Console
    var env: Env

    ghost predicate Valid()
      reads this, vars, vars.varp
    {
      vars.Valid()
    }

    ghost function Abs(): Names
      reads this, vars
    {
      Names(vars.es, env)
    }

    constructor (env: Env)
      ensures Valid() && Abs() == Names([], env) && fresh(vars)
    {
      vars := new Console();
      this.env := env;
    }

    /** cmd_set with a name and a value in the argument buffer. */
    method CmdSet(name: seq<char>, arg: array<char>, memory: bool, envOk: bool) returns (ok: bool)
      requires Valid() && NUL !in name && (name in env || StaysInside(vars.es, name))
      requires Terminated(arg[..], 0) && arg != vars.varp
      modifies this`env, vars, vars.varp, arg
      ensures Valid() && Abs() == Execute(old(Abs()), SetName(name, old(Str(arg[..], 0)), memory, envOk))
      ensures ok == if name in old(env) then envOk else memory
    {
      TrimNoNul(Str(arg[..], 0));
      var at := TrimSpaces(arg, 0);
      var value := Str(arg[..], at);
      if name !in env {
        ok := vars.SetVar(name, value, memory);
      } else {
        ok := envOk;
        if envOk {
          env := env[name := value];
        }
      }
    }

    /** cmd_unset.  `memory` is whether the shrunken buffer can be moved; the result is
        an error when it cannot, but the name is gone. */
    method CmdUnset(name: seq<char>, memory: bool, envOk: bool) returns (ok: bool)
      requires Valid() && NUL !in name && StaysInside(vars.es, name)
      modifies this`env, vars, vars.varp
      ensures Valid() && Abs() == Execute(old(Abs()), UnsetName(name, envOk))
      ensures ok <==> envOk && (memory || Find(old(vars.es), name).None? || vars.es == [])
    {
      ok := vars.UnsetVar(name, memory);
      if envOk {
        env := env - {name};
      } else {
        ok := false;
      }
    }

    /** cmd_export with or without a value. */
    method CmdExport(name: seq<char>, given: Option<seq<char>>, memory: bool, envOk: bool) returns (ok: bool)
      requires Valid() && NUL !in name && StaysInside(vars.es, name) && (given.Some? ==> NUL !in given.value)
      modifies this`env, vars, vars.varp
      ensures Valid() && Abs() == Execute(old(Abs()), Export(name, given, envOk))
      ensures ok <==> envOk && (memory || Find(old(vars.es), name).None? || vars.es == [])
    {
      var value := [];
      if given.Some? {
        value := given.value;
      } else {
        var tmp := vars.GetVar(name);
        if tmp.Some? {
          value := tmp.value;
        }
      }
      if !envOk {
        return false;
      }
      env := env[name := value];
      ok := vars.UnsetVar(name, memory);
    }
  }
}
