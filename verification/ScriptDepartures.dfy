/** Where the machine departs from the structured meaning, and what it does there. */
module ScriptDepartures {
  import opened Wrappers
  import opened ScriptMachine
  import opened ScriptMeaning
  import opened ScriptSimulation
  import opened ScriptTheorems
  import opened ScriptLayout

  // ---------- A loop directly in a loop ----------

  /** A loop line met while an enclosing loop body is being skipped: its condition runs
      all the same, unless the `if` frame also disables commands. */
  lemma SkippedLoopRunsCondition(o: Oracle, depth: nat, script: seq<Line>, s: Np, until: bool, cond: Line)
    requires Between(depth, s) && !LoopEnabled(s) && s.lpndx + 1 < depth && IsCondition(cond)
    requires At(script, s.next, [[if until then KwUntil else KwWhile] + cond])
    ensures Step(o, depth, script, s).trace == s.trace <==> !ItefEnabled(s)
  {
    hide Step;
    LineLoop(o, depth, script, s, until, cond);
    assert |Traced(o, cond, WorldOf(s))| == |s.trace| + 1;
  }

  /** So a loop directly inside a loop is not skipped when the outer condition is not
      met: whatever the two conditions and the inner body are, the inner condition has
      been executed three lines in, right after the outer one. */
  lemma NestedLoopRuns(o: Oracle, depth: nat, p: Prog, w: World)
    requires p.Loop? && p.body.Loop? && WellFormed(p) && Nests(depth, p)
    requires Fails(o, p.cond, w) != p.until
    ensures var w1 := World(Traced(o, p.cond, w), false);
      Run(o, depth, p, w, 3).trace == Traced(o, p.body.cond, w1)
    ensures forall fuel :: fuel > 0 ==> Exec(o, Outside, p, w, fuel) == Off
  {
    hide Step, Steps;
    var s := Start(depth, w.trace, w.fail);
    var script := Print(p);
    assert At(script, 0, script) by { assert script[0..|script|] == script; }
    AtLoop(script, 0, p);
    var m := EnterLoop(o, depth, script, s, p);
    AtLoop(script, 2, p.body);
    assert LoopDepth(p) == 1 + (1 + LoopDepth(p.body.body));
    var t := Step(o, depth, script, m);
    LineLoop(o, depth, script, m, p.body.until, p.body.cond);
    ReachesStep(o, depth, script, m, t);
    ReachesThen(o, depth, script, s, 2, m, 1, t);
    assert Reaches(o, depth, script, s, 3, t);
  }

  // ---------- A break under an if ----------

  /** `break` restores the if-index its loop began with, so it keeps the open `if`
      frames exactly when none was opened since. */
  lemma BreakKeepsFrames(o: Oracle, depth: nat, script: seq<Line>, s: Np)
    requires Between(depth, s) && CmdEnabled(s) && At(script, s.next, [[KwBreak]])
    ensures Step(o, depth, script, s).iendx == s.iendx <==> PlaceOf(s) != UnderIf
  {
    assert script[s.next] == script[s.next..s.next + 1][0] == [KwBreak];
  }

  /** What `break` leaves in a loop body: the rest of the body is disabled, and the frame the
      loop began in is on top. */
  lemma BreakPops(o: Oracle, depth: nat, script: seq<Line>, s: Np)
    requires Between(depth, s) && CmdEnabled(s) && At(script, s.next, [[KwBreak]])
    requires s.TopLoop().state == LoopDo
    ensures var t := Step(o, depth, script, s);
      && t.next == s.next + 1 && WorldOf(t) == World(s.trace, false) && t.iendx == s.TopLoop().iendx
      && t.lpndx == s.lpndx && t.lp == Disabled(s).lp && |t.ie| == |s.ie|
      && (s.ie[s.TopLoop().iendx].state != ItefIf ==> t.ie == s.ie)
      && t.TopIf().state == s.ie[s.TopLoop().iendx].state
  {
    assert script[s.next] == script[s.next..s.next + 1][0] == [KwBreak];
    var s0 := s.(foffs := s.next, next := s.next + 1, jump := false);
    assert NshLoop(depth, s0, [KwBreak]) == NshItef(depth, s0, [KwBreak]) == Parsed(s0, [KwBreak], true);
    hide NshLoop, NshItef;
  }

  /** `fi`, anywhere but on the line after a loop's: it closes the top frame if that one is in a branch, and is
      rejected otherwise. */
  lemma FiLine(o: Oracle, depth: nat, script: seq<Line>, s: Np)
    requires Safe(depth, s) && !AwaitsDo(s) && At(script, s.next, [[KwFi]])
    ensures var t := Step(o, depth, script, s);
      && t.next == s.next + 1 && t.trace == s.trace && t.lp == s.lp && t.lpndx == s.lpndx
      && if s.TopIf().state == ItefThen || s.TopIf().state == ItefElse
         then t.iendx == s.iendx - 1 && t.ie == s.ie && t.fail == s.fail
         else t.iendx == 0 && t.TopIf() == NORMAL_IF && t.fail
  {
    assert script[s.next] == script[s.next..s.next + 1][0] == [KwFi];
    var s0 := s.(foffs := s.next, next := s.next + 1, jump := false);
    assert NshLoop(depth, s0, [KwFi]) == Parsed(s0, [KwFi], true);
    hide NshLoop;
  }

  /** `else`, likewise. */
  lemma ElseLine(o: Oracle, depth: nat, script: seq<Line>, s: Np)
    requires Safe(depth, s) && !AwaitsDo(s) && At(script, s.next, [[KwElse]])
    ensures var t := Step(o, depth, script, s);
      && t.next == s.next + 1 && t.trace == s.trace && t.lp == s.lp && t.lpndx == s.lpndx
      && if s.TopIf().state == ItefThen
         then t.iendx == s.iendx && t.ie == s.ie[s.iendx := s.TopIf().(state := ItefElse)] && t.fail == s.fail
         else t.iendx == 0 && t.TopIf() == NORMAL_IF && t.fail
  {
    assert script[s.next] == script[s.next..s.next + 1][0] == [KwElse];
    var s0 := s.(foffs := s.next, next := s.next + 1, jump := false);
    assert NshLoop(depth, s0, [KwElse]) == Parsed(s0, [KwElse], true);
    hide NshLoop;
  }

  /** After a `break` the rest of its branch is walked through, and then the branch's own
      `fi` meets the frame in which the loop began.  It is rejected exactly when that frame
      is in no branch (the loop stands in no `if`, or in a condition); otherwise it closes
      that frame, which belongs to an `if` around the loop. */
  lemma FiAfterBreak(o: Oracle, depth: nat, script: seq<Line>, s: Np, rest: Prog) returns (k: nat, t: Np)
    requires Between(depth, s) && CmdEnabled(s) && PlaceOf(s) == UnderIf
    requires At(script, s.next, [[KwBreak]] + (Print(rest) + [[KwFi]]))
    requires Fits(depth, s, rest) && SkipSafe(rest)
    requires rest == Nop || s.ie[s.TopLoop().iendx].state != ItefIf
    ensures k == 1 + |Print(rest)| + 1 && Reaches(o, depth, script, s, k, t) && Safe(depth, t)
    ensures t.next == s.next + k && t.trace == s.trace && t.lpndx == s.lpndx
    ensures t.TopLoop() == s.TopLoop().(enable := false)
    ensures var outer := s.ie[s.TopLoop().iendx].state;
      && (t.fail <==> outer != ItefThen && outer != ItefElse)
      && t.iendx == (if t.fail then 0 else s.TopLoop().iendx - 1)
      && (t.fail ==> t.TopIf() == NORMAL_IF)
      && (!t.fail ==> forall i :: 0 <= i <= t.iendx ==> t.ie[i] == s.ie[i])
  {
    hide Step, Steps, Reaches, At, Print, SkipSafe;
    AtSplit(script, s.next, [[KwBreak]], Print(rest) + [[KwFi]]);
    AtSplit(script, s.next + 1, Print(rest), [[KwFi]]);
    var m := Step(o, depth, script, s);
    BreakPops(o, depth, script, s);
    ReachesStep(o, depth, script, s, m);
    var n := m;
    if rest == Nop {
      assert Print(rest) == [] by { PrintNop(); }
    } else {
      n := Skip(o, depth, script, m, rest);
      ReachesThen(o, depth, script, s, 1, m, |Print(rest)|, n);
    }
    t := Step(o, depth, script, n);
    FiLine(o, depth, script, n);
    ReachesStep(o, depth, script, n, t);
    k := 1 + |Print(rest)| + 1;
    ReachesThen(o, depth, script, s, k - 1, n, 1, t);
  }

  lemma PrintNop()
    ensures Print(Nop) == []
  {
  }

  /** A loop whose body is `if cond; then break; fi`, at the top of a script: once both
      conditions are met, `fi` finds no frame to close.  The loop does end after the
      two conditions, but the script ends with `$?` set although no command failed. */
  lemma BreakUnderIf(o: Oracle, depth: nat, until: bool, a: Line, neg: bool, b: Line, w: World)
    requires depth > 1 && IsCondition(a) && IsCondition(b)
    requires Fails(o, a, w) == until
    requires Fails(o, b, World(Traced(o, a, w), false)) == neg
    ensures var p := Loop(until, a, If(neg, b, Break, None));
      var t := Run(o, depth, p, w, 7);
      && t.next == |Print(p)| && t.fail
      && t.trace == Traced(o, b, World(Traced(o, a, w), false))
  {
    hide Step, Steps, Reaches, At, Print;
    var p := Loop(until, a, If(neg, b, Break, None));
    var (s, script) := (Start(depth, w.trace, w.fail), Print(p));
    BreakLines(script, until, a, neg, b);
    var m := EnterLoop(o, depth, script, s, p);
    var n := EnterIf(o, depth, script, m, p.body);
    ReachesThen(o, depth, script, s, 2, m, 2, n);
    PrintNop();
    var k, r := FiAfterBreak(o, depth, script, n, Nop);
    ReachesThen(o, depth, script, s, 4, n, 2, r);
    var t := Step(o, depth, script, r);
    DoneLine(o, depth, script, r);
    ReachesStep(o, depth, script, r, t);
    ReachesThen(o, depth, script, s, 6, r, 1, t);
    assert Reaches(o, depth, script, s, 7, t);
    ReachesIs(o, depth, script, s, 7, t);
  }

  lemma BreakLines(script: seq<Line>, until: bool, a: Line, neg: bool, b: Line)
    requires IsCondition(a) && IsCondition(b) && script == Print(Loop(until, a, If(neg, b, Break, None)))
    ensures var p := Loop(until, a, If(neg, b, Break, None));
      && At(script, 0, Print(p)) && At(script, 2, Print(p.body))
      && At(script, 4, [[KwBreak]] + ([] + [[KwFi]])) && At(script, 6, [[KwDone]]) && |script| == 7
      && WellFormed(p) && IfDepth(p) == 1 && LoopDepth(p) == 1
      && WellFormed(p.body) && IfDepth(p.body) == 1 && LoopDepth(p.body) == 0
  {
    var p := Loop(until, a, If(neg, b, Break, None));
    BreakSizes();
    assert WellFormed(p) && IfDepth(p) == 1 && LoopDepth(p) == 1;
    assert IfDepth(p.body) == 1 && LoopDepth(p.body) == 0 && WellFormed(p.body);
    hide Print, PrintElse, At, IfDepth, LoopDepth, WellFormed, IsCondition;
    WholeScript(p);
    AtLoop(script, 0, p);
    AtIf(script, 2, p.body);
    assert |Print(p.body)| == 4;
    AtJoin(script, 4, [[KwBreak]], [[KwFi]]);
    assert [[KwBreak]] + ([] + [[KwFi]]) == [[KwBreak]] + [[KwFi]];
  }

  lemma WholeScript(p: Prog)
    ensures At(Print(p), 0, Print(p))
  {
    assert Print(p)[0..|Print(p)|] == Print(p);
  }

  lemma BreakSizes()
    ensures IfDepth(Break) == LoopDepth(Break) == 0 && WellFormed(Break) && Print(Break) == [[KwBreak]]
    ensures |PrintElse(None)| == 0
  {
  }

  lemma ReachesIs(o: Oracle, depth: nat, script: seq<Line>, s: Np, k: nat, t: Np)
    requires Reaches(o, depth, script, s, k, t)
    ensures Safe(depth, s) && Steps(o, depth, script, k, s) == t
  {
  }

  /** The same with an `else`: it is rejected exactly when the frame in which the loop began
      is not in its first branch; otherwise it switches that frame to its second branch. */
  lemma ElseAfterBreak(o: Oracle, depth: nat, script: seq<Line>, s: Np) returns (t: Np)
    requires Between(depth, s) && CmdEnabled(s) && PlaceOf(s) == UnderIf
    requires At(script, s.next, [[KwBreak]] + [[KwElse]])
    ensures Reaches(o, depth, script, s, 2, t) && t.trace == s.trace && s.iendx < |s.ie| && t.iendx < |t.ie|
    ensures var (j, outer) := (s.TopLoop().iendx, s.ie[s.TopLoop().iendx].state);
      && (t.fail <==> outer != ItefThen)
      && (t.fail ==> t.iendx == 0 && t.TopIf() == NORMAL_IF)
      && (!t.fail ==> t.iendx == j && t.ie == s.ie[j := s.ie[j].(state := ItefElse)])
  {
    hide Step, Steps, Reaches, At;
    AtSplit(script, s.next, [[KwBreak]], [[KwElse]]);
    var m := Step(o, depth, script, s);
    BreakPops(o, depth, script, s);
    ReachesStep(o, depth, script, s, m);
    t := Step(o, depth, script, m);
    ElseLine(o, depth, script, m);
    ReachesStep(o, depth, script, m, t);
    ReachesThen(o, depth, script, s, 1, m, 1, t);
  }

  /** `done` of a disabled loop, whatever the `if` stack looks like. */
  lemma DoneLine(o: Oracle, depth: nat, script: seq<Line>, s: Np)
    requires Safe(depth, s) && s.TopLoop().state == LoopDo && !s.TopLoop().enable && At(script, s.next, [[KwDone]])
    ensures s.lpndx > 0
    ensures var t := Step(o, depth, script, s);
      && t.next == s.next + 1 && WorldOf(t) == WorldOf(s) && t.iendx == s.iendx && t.ie == s.ie
      && t.lpndx == s.lpndx - 1 && t.TopLoop() == s.lp[s.lpndx - 1]
  {
    assert script[s.next] == script[s.next..s.next + 1][0] == [KwDone];
  }

  /** `if a; then while b; do if c; then break; fi; done; else d; fi`, one keyword or command
      a line, with any polarity of the three conditions. */
  function Nested(neg: bool, a: Line, until: bool, b: Line, neg': bool, c: Line, d: Line): Prog {
    If(neg, a, Loop(until, b, If(neg', c, Break, None)), Some(Simple(d)))
  }

  lemma NestedLines(script: seq<Line>, neg: bool, a: Line, until: bool, b: Line, neg': bool, c: Line, d: Line)
    requires script == Print(Nested(neg, a, until, b, neg', c, d))
    ensures var p := Nested(neg, a, until, b, neg', c, d);
      && At(script, 0, Print(p)) && At(script, 2, Print(p.thn)) && At(script, 4, Print(p.thn.body))
      && At(script, 6, [[KwBreak]] + ([] + [[KwFi]])) && At(script, 8, [[KwDone]])
      && At(script, 9, [[KwElse]]) && At(script, 10, [d]) && At(script, 11, [[KwFi]]) && |script| == 12
  {
    var p := Nested(neg, a, until, b, neg', c, d);
    WholeScript(p);
    BreakSizes();
    ElseSize(d);
    hide Print, PrintElse, At;
    AtIf(script, 0, p);
    AtLoop(script, 2, p.thn);
    AtIf(script, 4, p.thn.body);
    assert |Print(p.thn.body)| == 4 && |Print(p.thn)| == 7 && |PrintElse(p.els)| == 2;
    AtSplit(script, 9, [[KwElse]], [d]);
    AtJoin(script, 6, [[KwBreak]], [[KwFi]]);
    assert [[KwBreak]] + ([] + [[KwFi]]) == [[KwBreak]] + [[KwFi]];
  }

  lemma ElseSize(d: Line)
    ensures PrintElse(Some(Simple(d))) == [[KwElse]] + [d]
  {
  }

  lemma AtJoin(script: seq<Line>, i: nat, a: seq<Line>, b: seq<Line>)
    requires At(script, i, a) && At(script, i + |a|, b)
    ensures At(script, i, a + b)
  {
    assert script[i..i + |a| + |b|] == script[i..i + |a|] + script[i + |a|..i + |a| + |b|];
  }

  /** When all three conditions are met, the `fi` of the inner conditional closes the outer
      one, the `else` is rejected, and its branch runs as well: commands of both branches
      have been executed when the script ends, and `$?` is set. */
  lemma BothBranchesRun(o: Oracle, depth: nat, neg: bool, a: Line, until: bool, b: Line, neg': bool, c: Line, d: Line,
                        w: World)
    requires depth > 2 && IsCondition(a) && IsCondition(b) && IsCondition(c) && d != [] && NamesCommand(d[0])
    requires var w1 := World(Traced(o, a, w), false);
      var w2 := World(Traced(o, b, w1), false);
      Fails(o, a, w) == neg && Fails(o, b, w1) == until && Fails(o, c, w2) == neg'
    ensures var p := Nested(neg, a, until, b, neg', c, d);
      var w1 := World(Traced(o, a, w), false);
      var w2 := World(Traced(o, b, w1), false);
      var w3 := World(Traced(o, c, w2), true);
      var t := Run(o, depth, p, w, 12);
      t.next == |Print(p)| && WorldOf(t) == World(Traced(o, d, w3), true)
  {
    hide Step, Steps, Reaches, At, Print;
    var p := Nested(neg, a, until, b, neg', c, d);
    var (s, script) := (Start(depth, w.trace, w.fail), Print(p));
    NestedLines(script, neg, a, until, b, neg', c, d);
    NestedFits(depth, neg, a, until, b, neg', c, d);
    var m := EnterIf(o, depth, script, s, p);
    var n := EnterLoop(o, depth, script, m, p.thn);
    ReachesThen(o, depth, script, s, 2, m, 2, n);
    var q := EnterIf(o, depth, script, n, p.thn.body);
    ReachesThen(o, depth, script, s, 4, n, 2, q);
    PrintNop();
    var k, r := FiAfterBreak(o, depth, script, q, Nop);
    ReachesThen(o, depth, script, s, 6, q, 2, r);
    AfterDone(o, depth, script, s, r, d);
  }

  lemma NestedFits(depth: nat, neg: bool, a: Line, until: bool, b: Line, neg': bool, c: Line, d: Line)
    requires depth > 2 && IsCondition(a) && IsCondition(b) && IsCondition(c) && d != [] && NamesCommand(d[0])
    ensures var p := Nested(neg, a, until, b, neg', c, d);
      && WellFormed(p) && IfDepth(p) == 2 && LoopDepth(p) == 1
      && WellFormed(p.thn) && IfDepth(p.thn) == 1 && LoopDepth(p.thn) == 1
      && WellFormed(p.thn.body) && IfDepth(p.thn.body) == 1 && LoopDepth(p.thn.body) == 0
  {
    var p := Nested(neg, a, until, b, neg', c, d);
    assert IfDepth(Break) == LoopDepth(Break) == 0 && WellFormed(Break);
    assert IfDepth(p.thn.body) == 1 && LoopDepth(p.thn.body) == 0 && WellFormed(p.thn.body);
    assert IfDepth(p.thn) == 1 && LoopDepth(p.thn) == 1 && WellFormed(p.thn);
  }

  /** The last four lines, after the inner `fi` has closed the outer conditional. */
  lemma AfterDone(o: Oracle, depth: nat, script: seq<Line>, s: Np, r: Np, d: Line)
    requires Reaches(o, depth, script, s, 8, r) && Safe(depth, r)
    requires r.next == 8 && r.lpndx == 1 && r.iendx == 0 && r.TopLoop().state == LoopDo && !r.TopLoop().enable
    requires r.ie[0] == NORMAL_IF && d != [] && d[0].Text?
    requires At(script, 8, [[KwDone]]) && At(script, 9, [[KwElse]]) && At(script, 10, [d]) && At(script, 11, [[KwFi]])
    ensures var t := Steps(o, depth, script, 12, s);
      t.next == 12 && WorldOf(t) == World(Traced(o, d, World(r.trace, true)), true)
  {
    hide Step, Steps, At;
    var u := Step(o, depth, script, r);
    DoneLine(o, depth, script, r);
    ReachesStep(o, depth, script, r, u);
    ReachesThen(o, depth, script, s, 8, r, 1, u);
    var v := Step(o, depth, script, u);
    ElseLine(o, depth, script, u);
    ReachesStep(o, depth, script, u, v);
    ReachesThen(o, depth, script, s, 9, u, 1, v);
    var x := Step(o, depth, script, v);
    LineSimple(o, depth, script, v, d);
    ReachesStep(o, depth, script, v, x);
    ReachesThen(o, depth, script, s, 10, v, 1, x);
    var t := Step(o, depth, script, x);
    FiLine(o, depth, script, x);
    ReachesStep(o, depth, script, x, t);
    ReachesThen(o, depth, script, s, 11, x, 1, t);
  }

  // ---------- A keyword behind a keyword ----------

  /** A keyword behind another one that cannot be read there. */
  predicate KeywordBehind(line: Line) {
    && |line| >= 2
    && (|| (line[0] == KwDo && LoopWord(line[1]))
        || ((line[0] == KwThen || line[0] == KwElse) && (LoopWord(line[1]) || IfWord(line[1]))))
  }

  /** A command that no condition waits for sets `$?`. */
  lemma RunsPlain(o: Oracle, depth: nat, s: Np, argv: Line)
    requires Safe(depth, s) && argv != [] && argv[0] != KwBreak && !AwaitsDo(s) && s.TopIf().state != ItefIf
    ensures var failed := Fails(o, argv, WorldOf(s));
      Execute(o, depth, s, argv) == s.(trace := Traced(o, argv, WorldOf(s)), fail := failed)
  {
  }

  lemma BehindDo(o: Oracle, depth: nat, s: Np, line: Line)
    requires Safe(depth, s) && KeywordBehind(line) && line[0] == KwDo && s.TopIf().state != ItefIf
    requires ParseCommand(o, depth, s, [KwDo]).errors == s.errors
    ensures var m := ParseCommand(o, depth, s, [KwDo]);
      && m.TopIf() == s.TopIf() && m.TopLoop().state == LoopDo && m.iendx == s.iendx && m.lpndx == s.lpndx
      && WorldOf(m) == WorldOf(s)
      && ParseCommand(o, depth, s, line) == if CmdEnabled(m) then Execute(o, depth, m, line[1..]) else m
  {
    hide CmdEnabled, Execute;
    assert [KwDo][1..] == [];
    var m := ParseCommand(o, depth, s, [KwDo]);
    assert NshLoop(depth, s, line) == Parsed(m, line[1..], true);
    hide NshLoop;
  }

  lemma BehindBranch(o: Oracle, depth: nat, s: Np, line: Line)
    requires Safe(depth, s) && KeywordBehind(line) && line[0] != KwDo
    requires ParseCommand(o, depth, s, [line[0]]).errors == s.errors
    ensures var m := ParseCommand(o, depth, s, [line[0]]);
      && m.TopIf().state != ItefIf && !AwaitsDo(m) && m.iendx == s.iendx && m.lpndx == s.lpndx
      && WorldOf(m) == WorldOf(s)
      && ParseCommand(o, depth, s, line) == if CmdEnabled(m) then Execute(o, depth, m, line[1..]) else m
  {
    hide CmdEnabled, Execute;
    assert [line[0]][1..] == [];
    var m := ParseCommand(o, depth, s, [line[0]]);
    assert NshLoop(depth, s, line) == Parsed(s, line, true) == NshLoop(depth, s, [line[0]]).(words := line);
    hide NshLoop;
  }

  /** It names a command: after an accepted `then` such as in `then while b`, the line runs a
      command called `while` if commands are enabled, its status goes to `$?`, and no
      construct is opened or closed. */
  lemma KeywordBehindKeyword(o: Oracle, depth: nat, s: Np, line: Line)
    requires Safe(depth, s) && KeywordBehind(line)
    requires line[0] == KwDo ==> s.TopIf().state != ItefIf
    requires ParseCommand(o, depth, s, [line[0]]).errors == s.errors
    ensures var m := ParseCommand(o, depth, s, [line[0]]);
      var t := ParseCommand(o, depth, s, line);
      && t.iendx == s.iendx && t.lpndx == s.lpndx && t.ie == m.ie && t.lp == m.lp && t.errors == s.errors
      && WorldOf(t) == if CmdEnabled(m) then World(Traced(o, line[1..], WorldOf(s)), Fails(o, line[1..], WorldOf(s)))
                       else WorldOf(s)
  {
    hide ParseCommand, CmdEnabled;
    if line[0] == KwDo {
      BehindDo(o, depth, s, line);
    } else {
      BehindBranch(o, depth, s, line);
    }
    var m := ParseCommand(o, depth, s, [line[0]]);
    RunsPlain(o, depth, m, line[1..]);
    hide Execute;
  }
}
