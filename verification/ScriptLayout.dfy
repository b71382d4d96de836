/** Scripts as they are written.  Lines without a word (blank lines and comments) may stand
    anywhere, and a command may follow `do`, `then` or `else` on the same line.  The machine
    treats such a script as the one with a line for each command and no other lines. */
module ScriptLayout {
  import opened ScriptMachine
  import opened ScriptMeaning

  // ---------- Tidy scripts ----------

  predicate LoopWord(w: Word) {
    w.KwWhile? || w.KwUntil? || w.KwDo? || w.KwDone?
  }

  predicate IfWord(w: Word) {
    w.KwIf? || w.KwThen? || w.KwElse? || w.KwFi?
  }

  /** A keyword with a command behind it that is read there as on a line of its own.  After
      `do` another loop keyword is not, and after `then` and `else` no other keyword is
      (`KeywordBehindKeyword` says what happens to it). */
  predicate Joined(line: Line) {
    && |line| >= 2
    && !LoopWord(line[1])
    && (line[0] == KwDo || ((line[0] == KwThen || line[0] == KwElse) && !IfWord(line[1])))
  }

  /** The lines that `line` stands for: none without a word, and two when it is `Joined` and
      `split` says so. */
  function Lines(split: bool, line: Line): seq<Line> {
    if line == [] then []
    else if split && Joined(line) then [[line[0]], line[1..]]
    else [line]
  }

  function Tidy(split: bool, script: seq<Line>): seq<Line> {
    if script == [] then [] else Lines(split, script[0]) + Tidy(split, script[1..])
  }

  lemma {:induction false} TidyPlus(split: bool, a: seq<Line>, b: seq<Line>)
    ensures Tidy(split, a + b) == Tidy(split, a) + Tidy(split, b)
  {
    hide Lines;
    if a == [] {
      assert a + b == b;
    } else {
      assert (a + b)[1..] == a[1..] + b;
      TidyPlus(split, a[1..], b);
    }
  }

  lemma TidyLine(split: bool, line: Line)
    ensures Tidy(split, [line]) == Lines(split, line)
  {
    hide Lines;
    assert [line][1..] == [];
  }

  /** Where the line `i` of a script is once the script is tidy. */
  function TidyIndex(split: bool, script: seq<Line>, i: nat): nat {
    |Tidy(split, if i < |script| then script[..i] else script)|
  }

  lemma TidyIndexIs(split: bool, script: seq<Line>, i: nat)
    requires i < |script|
    ensures TidyIndex(split, script, i + 1) == TidyIndex(split, script, i) + |Lines(split, script[i])|
    ensures At(Tidy(split, script), TidyIndex(split, script, i), Lines(split, script[i]))
  {
    hide Lines, Tidy;
    var (a, b) := (script[..i], script[i + 1..]);
    assert script[..i + 1] == a + [script[i]];
    TidyPlus(split, a, [script[i]]);
    TidyLine(split, script[i]);
    assert script == (a + [script[i]]) + b;
    TidyPlus(split, a + [script[i]], b);
    assert i + 1 == |script| ==> script[..i + 1] == script;
    var (u, v, z) := (Tidy(split, a), Lines(split, script[i]), Tidy(split, b));
    assert Tidy(split, script) == (u + v) + z;
    assert ((u + v) + z)[|u|..|u| + |v|] == v;
  }

  // ---------- Alike states ----------

  function Shifted(f: nat -> nat, frame: LoopFrame): LoopFrame {
    frame.(topoffs := f(frame.topoffs))
  }

  /** The same loop frames, with their file positions moved by `f`. */
  ghost predicate Frames(f: nat -> nat, a: seq<LoopFrame>, b: seq<LoopFrame>) {
    |a| == |b| && forall k :: 0 <= k < |a| ==> b[k] == Shifted(f, a[k])
  }

  lemma FramesAt(f: nat -> nat, a: seq<LoopFrame>, b: seq<LoopFrame>, k: nat)
    requires Frames(f, a, b) && k < |a|
    ensures |a| == |b| && b[k] == Shifted(f, a[k])
  {
  }

  lemma FramesUpdate(f: nat -> nat, a: seq<LoopFrame>, b: seq<LoopFrame>, k: nat, frame: LoopFrame)
    requires Frames(f, a, b) && k < |a| && k < |b|
    ensures Frames(f, a[k := frame], b[k := Shifted(f, frame)])
  {
  }

  /** The two states differ in nothing but file positions; those in the loop frames are
      moved by `f`. */
  ghost predicate Same(f: nat -> nat, s: Np, t: Np) {
    && t.ie == s.ie && t.iendx == s.iendx && t.lpndx == s.lpndx
    && t.fail == s.fail && t.trace == s.trace && t.errors == s.errors
    && Frames(f, s.lp, t.lp)
  }

  /** So are the next line and the line being parsed. */
  predicate Moved(f: nat -> nat, s: Np, t: Np) {
    t.next == f(s.next) && s.foffs >= 0 && t.foffs == f(s.foffs)
  }

  /** A line that writes a file position into a frame or goes back to one. */
  predicate Marks(line: Line) {
    line != [] && (line[0] == KwWhile || line[0] == KwUntil || line[0] == KwDone)
  }

  /** Two parses of one line that differ in nothing but file positions, and did not move. */
  ghost predicate ParsedSame(f: nat -> nat, s: Np, t: Np, a: Parsed, b: Parsed) {
    a.ok == b.ok && a.words == b.words && Same(f, a.s, b.s) && a.s.next == s.next && b.s.next == t.next
  }

  ghost predicate LoopParsedSame(f: nat -> nat, s: Np, t: Np, line: Line, a: Parsed, b: Parsed) {
    && a.ok == b.ok && a.words == b.words && Same(f, a.s, b.s)
    && (if Marks(line) then Moved(f, a.s, b.s) else a.s.next == s.next && b.s.next == t.next)
  }

  lemma ErrorSame(f: nat -> nat, s: Np, t: Np)
    requires |s.lp| > 0 && Same(f, s, t) && f(0) == 0
    ensures |t.lp| > 0 && Same(f, LoopError(s), LoopError(t))
  {
    hide Frames;
    FramesAt(f, s.lp, t.lp, 0);
    FramesUpdate(f, s.lp, t.lp, 0, s.lp[0].(state := LoopNormal, enable := true, topoffs := 0));
  }

  lemma LoopBeginSame(depth: nat, f: nat -> nat, s: Np, t: Np, line: Line)
    requires Safe(depth, s) && Safe(depth, t) && Same(f, s, t) && f(0) == 0
    requires Moved(f, s, t) && line != [] && (line[0] == KwWhile || line[0] == KwUntil)
    ensures LoopParsedSame(f, s, t, line, NshLoop(depth, s, line), NshLoop(depth, t, line))
  {
    hide Frames;
    FramesAt(f, s.lp, t.lp, s.lpndx);
    ErrorSame(f, s, t);
    if s.lpndx + 1 < depth {
      FramesUpdate(f, s.lp, t.lp, s.lpndx + 1, PushLoop(s, line[0] == KwUntil).TopLoop());
    }
    assert CmdEnabled(s) == CmdEnabled(t);
    hide CmdEnabled;
  }

  lemma LoopEndSame(depth: nat, f: nat -> nat, s: Np, t: Np, line: Line)
    requires Safe(depth, s) && Safe(depth, t) && Same(f, s, t) && f(0) == 0
    requires Moved(f, s, t) && line != [] && line[0] == KwDone
    ensures LoopParsedSame(f, s, t, line, NshLoop(depth, s, line), NshLoop(depth, t, line))
  {
    hide Frames;
    FramesAt(f, s.lp, t.lp, s.lpndx);
    ErrorSame(f, s, t);
    FramesUpdate(f, s.lp, t.lp, s.lpndx, s.TopLoop().(state := LoopNormal, enable := true));
  }

  lemma LoopDoSame(depth: nat, f: nat -> nat, s: Np, t: Np, line: Line)
    requires Safe(depth, s) && Safe(depth, t) && Same(f, s, t) && f(0) == 0
    requires line != [] && line[0] == KwDo
    ensures LoopParsedSame(f, s, t, line, NshLoop(depth, s, line), NshLoop(depth, t, line))
  {
    hide Frames;
    FramesAt(f, s.lp, t.lp, s.lpndx);
    ErrorSame(f, s, t);
    FramesUpdate(f, s.lp, t.lp, s.lpndx, s.TopLoop().(state := LoopDo));
  }

  lemma LoopOtherSame(depth: nat, f: nat -> nat, s: Np, t: Np, line: Line)
    requires Safe(depth, s) && Safe(depth, t) && Same(f, s, t) && f(0) == 0
    requires line == [] || !LoopWord(line[0])
    ensures LoopParsedSame(f, s, t, line, NshLoop(depth, s, line), NshLoop(depth, t, line))
  {
    hide Frames;
    FramesAt(f, s.lp, t.lp, s.lpndx);
    ErrorSame(f, s, t);
  }

  lemma LoopSame(depth: nat, f: nat -> nat, s: Np, t: Np, line: Line)
    requires Safe(depth, s) && Safe(depth, t) && Same(f, s, t) && f(0) == 0
    requires Marks(line) ==> Moved(f, s, t)
    ensures LoopParsedSame(f, s, t, line, NshLoop(depth, s, line), NshLoop(depth, t, line))
  {
    hide NshLoop, LoopParsedSame, Moved, Safe, Same;
    if line == [] || !LoopWord(line[0]) {
      LoopOtherSame(depth, f, s, t, line);
    } else if line[0] == KwDo {
      LoopDoSame(depth, f, s, t, line);
    } else if line[0] == KwDone {
      LoopEndSame(depth, f, s, t, line);
    } else {
      LoopBeginSame(depth, f, s, t, line);
    }
  }

  lemma ItefBeginSame(depth: nat, f: nat -> nat, s: Np, t: Np, line: Line)
    requires Safe(depth, s) && Safe(depth, t) && Same(f, s, t)
    requires line != [] && line[0] == KwIf
    ensures ParsedSame(f, s, t, NshItef(depth, s, line), NshItef(depth, t, line))
  {
    hide Frames;
    FramesAt(f, s.lp, t.lp, s.lpndx);
    assert CmdEnabled(s) == CmdEnabled(t);
    hide CmdEnabled;
  }

  lemma ItefBranchSame(depth: nat, f: nat -> nat, s: Np, t: Np, line: Line)
    requires Safe(depth, s) && Safe(depth, t) && Same(f, s, t)
    requires line != [] && (line[0] == KwThen || line[0] == KwElse)
    ensures ParsedSame(f, s, t, NshItef(depth, s, line), NshItef(depth, t, line))
  {
    hide Frames;
    FramesAt(f, s.lp, t.lp, s.lpndx);
    assert CmdEnabled(s) == CmdEnabled(t);
    hide CmdEnabled;
  }

  lemma ItefEndSame(depth: nat, f: nat -> nat, s: Np, t: Np, line: Line)
    requires Safe(depth, s) && Safe(depth, t) && Same(f, s, t)
    requires line != [] && line[0] == KwFi
    ensures ParsedSame(f, s, t, NshItef(depth, s, line), NshItef(depth, t, line))
  {
    hide Frames;
    FramesAt(f, s.lp, t.lp, s.lpndx);
    assert CmdEnabled(s) == CmdEnabled(t);
    hide CmdEnabled;
  }

  lemma ItefOtherSame(depth: nat, f: nat -> nat, s: Np, t: Np, line: Line)
    requires Safe(depth, s) && Safe(depth, t) && Same(f, s, t)
    requires line == [] || !IfWord(line[0])
    ensures ParsedSame(f, s, t, NshItef(depth, s, line), NshItef(depth, t, line))
  {
    hide Frames;
    FramesAt(f, s.lp, t.lp, s.lpndx);
    assert CmdEnabled(s) == CmdEnabled(t);
    hide CmdEnabled;
  }

  lemma ItefSame(depth: nat, f: nat -> nat, s: Np, t: Np, line: Line)
    requires Safe(depth, s) && Safe(depth, t) && Same(f, s, t)
    ensures ParsedSame(f, s, t, NshItef(depth, s, line), NshItef(depth, t, line))
  {
    hide NshItef, ParsedSame, Safe, Same;
    if line == [] || !IfWord(line[0]) {
      ItefOtherSame(depth, f, s, t, line);
    } else if line[0] == KwIf {
      ItefBeginSame(depth, f, s, t, line);
    } else if line[0] == KwFi {
      ItefEndSame(depth, f, s, t, line);
    } else {
      ItefBranchSame(depth, f, s, t, line);
    }
  }

  lemma SaveSame(f: nat -> nat, s: Np, t: Np, failed: bool)
    requires s.iendx < |s.ie| && s.lpndx < |s.lp| && Same(f, s, t)
    ensures t.lpndx < |t.lp|
    ensures var (a, b) := (SaveResult(s, failed), SaveResult(t, failed));
      Same(f, a, b) && a.next == s.next && b.next == t.next
  {
    hide Frames;
    FramesAt(f, s.lp, t.lp, s.lpndx);
    FramesUpdate(f, s.lp, t.lp, s.lpndx, s.TopLoop().(enable := !failed));
    FramesUpdate(f, s.lp, t.lp, s.lpndx, s.TopLoop().(enable := failed));
  }

  lemma BreakSame(f: nat -> nat, s: Np, t: Np)
    requires s.lpndx < |s.lp| && Same(f, s, t)
    ensures t.lpndx < |t.lp|
    ensures var (a, b) := (CmdBreak(s), CmdBreak(t));
      Same(f, a, b) && a.next == s.next && b.next == t.next
  {
    hide Frames;
    FramesAt(f, s.lp, t.lp, s.lpndx);
    FramesUpdate(f, s.lp, t.lp, s.lpndx, s.TopLoop().(enable := false));
  }

  lemma ExecuteSame(o: Oracle, depth: nat, f: nat -> nat, s: Np, t: Np, argv: Line)
    requires Safe(depth, s) && Safe(depth, t) && Same(f, s, t) && argv != []
    ensures var (a, b) := (Execute(o, depth, s, argv), Execute(o, depth, t, argv));
      Same(f, a, b) && a.next == s.next && b.next == t.next
  {
    hide SaveResult, CmdBreak;
    if argv[0] == KwBreak {
      CmdBreakSafe(depth, s);
      CmdBreakSafe(depth, t);
      BreakSame(f, s, t);
      SaveSame(f, CmdBreak(s), CmdBreak(t), false);
    } else {
      var failed := o(s.trace, argv, s.fail);
      var s1 := s.(trace := s.trace + [Event(argv, s.fail, failed)]);
      var t1 := t.(trace := t.trace + [Event(argv, t.fail, failed)]);
      SaveSame(f, s1, t1, failed);
    }
  }

  lemma ParseSame(o: Oracle, depth: nat, f: nat -> nat, s: Np, t: Np, line: Line)
    requires Safe(depth, s) && Safe(depth, t) && Same(f, s, t) && f(0) == 0
    requires Marks(line) ==> Moved(f, s, t)
    ensures var (a, b) := (ParseCommand(o, depth, s, line), ParseCommand(o, depth, t, line));
      && Same(f, a, b)
      && (Marks(line) ==> b.next == f(a.next))
      && (!Marks(line) ==> a.next == s.next && b.next == t.next)
  {
    hide NshLoop, NshItef, SaveResult, Execute, Marks;
    LoopSame(depth, f, s, t, line);
    var (a, b) := (NshLoop(depth, s, line), NshLoop(depth, t, line));
    if a.ok {
      ItefSame(depth, f, a.s, b.s, a.words);
      var (c, d) := (NshItef(depth, a.s, a.words), NshItef(depth, b.s, b.words));
      if c.ok {
        if c.words != [] && CmdEnabled(c.s) {
          ExecuteSame(o, depth, f, c.s, d.s, c.words);
        }
      } else {
        SaveSame(f, c.s, d.s, true);
      }
    } else {
      SaveSame(f, a.s, b.s, true);
    }
  }

  // ---------- One line ----------

  /** A command behind a keyword is looked at by neither nsh_loop nor nsh_itef. */
  lemma DoJoined(o: Oracle, depth: nat, s: Np, line: Line)
    requires Safe(depth, s) && Joined(line) && line[0] == KwDo
    requires ParseCommand(o, depth, s, [KwDo]).errors == s.errors
    ensures var m := ParseCommand(o, depth, s, [KwDo]);
      ParseCommand(o, depth, s, line) == ParseCommand(o, depth, m, line[1..])
  {
    hide Execute, CmdEnabled;
    assert [KwDo][1..] == [];
    var m := ParseCommand(o, depth, s, [KwDo]);
    assert NshLoop(depth, s, line) == Parsed(m, line[1..], true) == NshLoop(depth, m, line[1..]);
    hide NshLoop, NshItef;
  }

  lemma BranchJoined(o: Oracle, depth: nat, s: Np, line: Line)
    requires Safe(depth, s) && Joined(line) && line[0] != KwDo
    requires ParseCommand(o, depth, s, [line[0]]).errors == s.errors
    ensures var m := ParseCommand(o, depth, s, [line[0]]);
      ParseCommand(o, depth, s, line) == ParseCommand(o, depth, m, line[1..])
  {
    hide Execute, CmdEnabled;
    assert [line[0]][1..] == [];
    var m := ParseCommand(o, depth, s, [line[0]]);
    assert NshLoop(depth, s, line) == Parsed(s, line, true);
    assert NshLoop(depth, m, line[1..]) == Parsed(m, line[1..], true);
    hide NshLoop;
    assert NshItef(depth, s, line) == Parsed(m, line[1..], true) == NshItef(depth, m, line[1..]);
    hide NshItef;
  }

  /** When the keyword of a joined line is accepted, the line does what the keyword and the
      command do on lines of their own. */
  lemma JoinedIsTwo(o: Oracle, depth: nat, s: Np, line: Line)
    requires Safe(depth, s) && Joined(line)
    requires ParseCommand(o, depth, s, [line[0]]).errors == s.errors
    ensures var m := ParseCommand(o, depth, s, [line[0]]);
      ParseCommand(o, depth, s, line) == ParseCommand(o, depth, m, line[1..])
  {
    hide ParseCommand;
    if line[0] == KwDo {
      DoJoined(o, depth, s, line);
    } else {
      BranchJoined(o, depth, s, line);
    }
  }

  function Moves(split: bool, script: seq<Line>): nat -> nat {
    i => TidyIndex(split, script, i)
  }

  /** A state in the written script and one in the tidy one: equal but for line numbers,
      which differ as the lines' places do. */
  ghost predicate Alike(split: bool, script: seq<Line>, s: Np, t: Np) {
    Same(Moves(split, script), s, t) && t.next == TidyIndex(split, script, s.next)
  }

  /** The lines of the tidy script that the next written line stands for. */
  function Taken(split: bool, script: seq<Line>, s: Np): nat {
    if s.next < |script| then |Lines(split, script[s.next])| else 0
  }

  /** Where the machine is while it parses the line it has just read. */
  function Reading(s: Np): Np {
    s.(foffs := s.next, next := s.next + 1, jump := false)
  }

  lemma StepReads(o: Oracle, depth: nat, script: seq<Line>, s: Np)
    requires Safe(depth, s) && s.next < |script|
    ensures Safe(depth, Reading(s))
    ensures Step(o, depth, script, s) == ParseCommand(o, depth, Reading(s), script[s.next])
  {
    hide ParseCommand;
  }

  lemma StepWordless(o: Oracle, depth: nat, split: bool, script: seq<Line>, s: Np, t: Np)
    requires Safe(depth, s) && Safe(depth, t) && Alike(split, script, s, t)
    requires s.next < |script| && script[s.next] == []
    ensures Step(o, depth, script, s) == Reading(s)
    ensures Alike(split, script, Step(o, depth, script, s), t)
  {
    hide TidyIndex, Tidy, Frames;
    TidyIndexIs(split, script, s.next);
    assert ParseCommand(o, depth, Reading(s), []) == Reading(s);
  }

  lemma StepWhole(o: Oracle, depth: nat, split: bool, script: seq<Line>, s: Np, t: Np)
    requires Safe(depth, s) && Safe(depth, t) && Alike(split, script, s, t)
    requires s.next < |script| && Lines(split, script[s.next]) == [script[s.next]]
    ensures Alike(split, script, Step(o, depth, script, s), Step(o, depth, Tidy(split, script), t))
  {
    hide TidyIndex, Tidy, Frames, ParseCommand, Lines, Marks, At;
    var line := script[s.next];
    TidyIndexIs(split, script, s.next);
    TidyIndexZero(split, script);
    StepParses(o, depth, Tidy(split, script), t, line);
    ParseSame(o, depth, Moves(split, script), Reading(s), Reading(t), line);
  }

  lemma TidyIndexZero(split: bool, script: seq<Line>)
    ensures TidyIndex(split, script, 0) == 0
  {
  }

  lemma StepJoined(o: Oracle, depth: nat, split: bool, script: seq<Line>, s: Np, t: Np)
    requires Safe(depth, s) && Safe(depth, t) && Alike(split, script, s, t)
    requires s.next < |script| && split && Joined(script[s.next])
    requires Step(o, depth, Tidy(split, script), t).errors == t.errors
    ensures Alike(split, script, Step(o, depth, script, s),
              Step(o, depth, Tidy(split, script), Step(o, depth, Tidy(split, script), t)))
  {
    hide TidyIndex, Tidy, Frames, ParseCommand, At, Step;
    var (line, tidy, f) := (script[s.next], Tidy(split, script), Moves(split, script));
    TidyIndexIs(split, script, s.next);
    TidyIndexZero(split, script);
    assert Lines(split, line) == [[line[0]]] + [line[1..]];
    AtSplit(tidy, t.next, [[line[0]]], [line[1..]]);
    StepParses(o, depth, tidy, t, [line[0]]);
    ParseSame(o, depth, f, Reading(s), Reading(t), [line[0]]);
    var (m, n) := (ParseCommand(o, depth, Reading(s), [line[0]]), Step(o, depth, tidy, t));
    JoinedIsTwo(o, depth, Reading(s), line);
    StepParses(o, depth, tidy, n, line[1..]);
    ParseSame(o, depth, f, m, Reading(n), line[1..]);
    StepReads(o, depth, script, s);
  }

  /** One written line does what the tidy lines do that it stands for. */
  lemma StepAlike(o: Oracle, depth: nat, split: bool, script: seq<Line>, s: Np, t: Np)
    requires Safe(depth, s) && Safe(depth, t) && Alike(split, script, s, t)
    requires split ==> Step(o, depth, Tidy(split, script), t).errors == t.errors
    ensures Alike(split, script, Step(o, depth, script, s),
              Steps(o, depth, Tidy(split, script), Taken(split, script, s), t))
  {
    hide Step, Alike, Tidy, Joined;
    var tidy := Tidy(split, script);
    if s.next >= |script| {
      assert Step(o, depth, script, s) == s by { Past(o, depth, script, s); }
    } else if script[s.next] == [] {
      StepWordless(o, depth, split, script, s, t);
    } else if split && Joined(script[s.next]) {
      StepJoined(o, depth, split, script, s, t);
      var u := Step(o, depth, tidy, t);
      assert Steps(o, depth, tidy, 1, u) == Steps(o, depth, tidy, 0, Step(o, depth, tidy, u));
      assert Steps(o, depth, tidy, 2, t) == Steps(o, depth, tidy, 1, u);
    } else {
      StepWhole(o, depth, split, script, s, t);
      assert Steps(o, depth, tidy, 1, t) == Steps(o, depth, tidy, 0, Step(o, depth, tidy, t));
    }
  }

  lemma Past(o: Oracle, depth: nat, script: seq<Line>, s: Np)
    requires Safe(depth, s) && s.next >= |script|
    ensures Step(o, depth, script, s) == s
  {
  }
}
