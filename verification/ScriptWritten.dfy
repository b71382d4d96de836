/** The results about scripts as they are written: with lines without a word anywhere, and
    with commands behind `do`, `then` and `else`. */
module ScriptWritten {
  import opened ScriptMachine
  import opened ScriptMeaning
  import opened ScriptSimulation
  import opened ScriptTheorems
  import opened ScriptLayout

  // ---------- Whole runs ----------

  /** From `s` on no line is rejected. */
  ghost predicate Clean(o: Oracle, depth: nat, script: seq<Line>, s: Np)
    requires Safe(depth, s)
  {
    forall j: nat :: Steps(o, depth, script, j, s).errors == s.errors
  }

  lemma CleanAfter(o: Oracle, depth: nat, script: seq<Line>, s: Np, k: nat)
    requires Safe(depth, s) && Clean(o, depth, script, s)
    ensures Clean(o, depth, script, Steps(o, depth, script, k, s))
  {
    hide Step, Steps;
    var t := Steps(o, depth, script, k, s);
    forall j: nat ensures Steps(o, depth, script, j, t).errors == t.errors {
      StepsPlus(o, depth, script, k, j, s);
    }
  }

  lemma CleanStep(o: Oracle, depth: nat, script: seq<Line>, s: Np)
    requires Safe(depth, s) && Clean(o, depth, script, s)
    ensures Step(o, depth, script, s).errors == s.errors
  {
    hide Step;
    assert Steps(o, depth, script, 1, s) == Steps(o, depth, script, 0, Step(o, depth, script, s));
  }

  /** However many lines the written script has run, the tidy one gets to the same state. */
  lemma {:induction false} RunAlike(o: Oracle, depth: nat, split: bool, script: seq<Line>, s: Np, t: Np, k: nat)
    returns (j: nat)
    requires Safe(depth, s) && Safe(depth, t) && Alike(split, script, s, t)
    requires split ==> Clean(o, depth, Tidy(split, script), t)
    ensures Alike(split, script, Steps(o, depth, script, k, s), Steps(o, depth, Tidy(split, script), j, t))
    decreases k
  {
    hide Step, Alike, Tidy, Clean, Taken;
    var tidy := Tidy(split, script);
    if k == 0 {
      return 0;
    }
    if split {
      CleanStep(o, depth, tidy, t);
      CleanAfter(o, depth, tidy, t, Taken(split, script, s));
    }
    StepAlike(o, depth, split, script, s, t);
    var n := Taken(split, script, s);
    var u := Steps(o, depth, tidy, n, t);
    j := RunAlike(o, depth, split, script, Step(o, depth, script, s), u, k - 1);
    StepsPlus(o, depth, tidy, n, j, t);
    j := n + j;
  }

  /** Once the tidy script gets to its end, so does the written one. */
  lemma {:induction false} CatchUp(o: Oracle, depth: nat, split: bool, script: seq<Line>, s: Np, t: Np, j: nat)
    returns (k: nat)
    requires Safe(depth, s) && Safe(depth, t) && Alike(split, script, s, t)
    requires split ==> Clean(o, depth, Tidy(split, script), t)
    requires Steps(o, depth, Tidy(split, script), j, t).next >= |Tidy(split, script)|
    ensures Steps(o, depth, script, k, s).next >= |script|
    decreases j, |script| - s.next
  {
    hide Step, Alike, Tidy, Clean, Taken, Joined;
    var (tidy, n) := (Tidy(split, script), Taken(split, script, s));
    if s.next >= |script| {
      return 0;
    }
    if split {
      CleanStep(o, depth, tidy, t);
      CleanAfter(o, depth, tidy, t, n);
    }
    StepAlike(o, depth, split, script, s, t);
    var u := Steps(o, depth, tidy, n, t);
    var i := if n <= j then j - n else 0;
    if n <= j {
      StepsPlus(o, depth, tidy, n, i, t);
    } else {
      StepsPlus(o, depth, tidy, j, n - j, t);
      HaltedStays(o, depth, tidy, Steps(o, depth, tidy, j, t), n - j);
    }
    if script[s.next] == [] {
      StepWordless(o, depth, split, script, s, t);
      NoLines(split, script, s);
    } else {
      SomeLines(split, script, s, t);
    }
    k := CatchUp(o, depth, split, script, Step(o, depth, script, s), u, i);
    k := k + 1;
  }

  lemma NoLines(split: bool, script: seq<Line>, s: Np)
    requires s.next < |script| && script[s.next] == []
    ensures Taken(split, script, s) == 0
  {
  }

  /** A line with a word stands for lines that the tidy script has yet to run. */
  lemma SomeLines(split: bool, script: seq<Line>, s: Np, t: Np)
    requires s.next < |script| && script[s.next] != [] && Alike(split, script, s, t)
    ensures Taken(split, script, s) > 0 && t.next < |Tidy(split, script)|
  {
    hide Tidy;
    TidyIndexIs(split, script, s.next);
  }

  // ---------- Main results ----------

  /** The run of a script text, `k` lines in. */
  function RunText(o: Oracle, depth: nat, script: seq<Line>, w: World, k: nat): Np
    requires depth > 0
  {
    Steps(o, depth, script, k, Start(depth, w.trace, w.fail))
  }

  ghost predicate Halts(o: Oracle, depth: nat, script: seq<Line>, w: World, k: nat)
    requires depth > 0
  {
    RunText(o, depth, script, w, k).next >= |script|
  }

  lemma StartAlike(split: bool, script: seq<Line>, depth: nat, w: World)
    requires depth > 0
    ensures var s := Start(depth, w.trace, w.fail); Alike(split, script, s, s)
  {
    hide Tidy;
    TidyIndexZero(split, script);
  }

  lemma HaltsOnce(o: Oracle, depth: nat, script: seq<Line>, w: World, j: nat, k: nat)
    requires depth > 0 && Halts(o, depth, script, w, j) && Halts(o, depth, script, w, k)
    ensures RunText(o, depth, script, w, j) == RunText(o, depth, script, w, k)
  {
    hide Step, Steps;
    var (a, b) := if j < k then (j, k) else (k, j);
    var s := Start(depth, w.trace, w.fail);
    StepsPlus(o, depth, script, a, b - a, s);
    HaltedStays(o, depth, script, Steps(o, depth, script, a, s), b - a);
  }

  /** The written script after `k` lines and its tidy form after `j`, from the same start. */
  ghost predicate Meet(o: Oracle, depth: nat, split: bool, script: seq<Line>, w: World, k: nat, j: nat)
    requires depth > 0
  {
    Alike(split, script, RunText(o, depth, script, w, k), RunText(o, depth, Tidy(split, script), w, j))
  }

  lemma MeetSomewhere(o: Oracle, depth: nat, split: bool, script: seq<Line>, w: World, k: nat) returns (j: nat)
    requires depth > 0
    requires split ==> Clean(o, depth, Tidy(split, script), Start(depth, w.trace, w.fail))
    ensures Meet(o, depth, split, script, w, k, j)
    ensures Halts(o, depth, script, w, k) ==> Halts(o, depth, Tidy(split, script), w, j)
  {
    hide Step, Steps, Tidy, Clean, Same;
    StartAlike(split, script, depth, w);
    var s := Start(depth, w.trace, w.fail);
    j := RunAlike(o, depth, split, script, s, s, k);
  }

  lemma EndReached(o: Oracle, depth: nat, split: bool, script: seq<Line>, w: World, j: nat) returns (k: nat)
    requires depth > 0 && Halts(o, depth, Tidy(split, script), w, j)
    requires split ==> Clean(o, depth, Tidy(split, script), Start(depth, w.trace, w.fail))
    ensures Halts(o, depth, script, w, k)
  {
    hide Step, Steps, Tidy, Clean, Alike;
    StartAlike(split, script, depth, w);
    var s := Start(depth, w.trace, w.fail);
    k := CatchUp(o, depth, split, script, s, s, j);
  }

  /** A written script and its tidy form, from the same start: one ends exactly when the other
      does, and then in states that differ in nothing but line numbers. */
  lemma TextsAgree(o: Oracle, depth: nat, split: bool, script: seq<Line>, w: World)
    requires depth > 0
    requires split ==> Clean(o, depth, Tidy(split, script), Start(depth, w.trace, w.fail))
    ensures (exists k :: Halts(o, depth, script, w, k)) <==> (exists j :: Halts(o, depth, Tidy(split, script), w, j))
    ensures forall k, j :: Halts(o, depth, script, w, k) && Halts(o, depth, Tidy(split, script), w, j) ==>
      Meet(o, depth, split, script, w, k, j)
  {
    hide *;
    var tidy := Tidy(split, script);
    if k :| Halts(o, depth, script, w, k) {
      var j := MeetSomewhere(o, depth, split, script, w, k);
      assert Halts(o, depth, tidy, w, j);
    }
    if j :| Halts(o, depth, tidy, w, j) {
      var k := EndReached(o, depth, split, script, w, j);
      assert Halts(o, depth, script, w, k);
    }
    forall k, j | Halts(o, depth, script, w, k) && Halts(o, depth, tidy, w, j)
      ensures Meet(o, depth, split, script, w, k, j)
    {
      var i := MeetSomewhere(o, depth, split, script, w, k);
      MeetAtEnd(o, depth, split, script, w, k, i, j);
    }
  }

  lemma MeetAtEnd(o: Oracle, depth: nat, split: bool, script: seq<Line>, w: World, k: nat, i: nat, j: nat)
    requires depth > 0 && Meet(o, depth, split, script, w, k, i)
    requires Halts(o, depth, Tidy(split, script), w, i) && Halts(o, depth, Tidy(split, script), w, j)
    ensures Meet(o, depth, split, script, w, k, j)
  {
    hide Tidy, Alike, RunText, Halts;
    HaltsOnce(o, depth, Tidy(split, script), w, i, j);
  }

  /** Lines without a word change nothing, in any script, however malformed: with and without
      them the script ends or does not, and at its end the commands executed, `$?`, the
      number of rejected lines and both stacks are the same; only the line numbers in the
      loop frames are those of the other text. */
  lemma WordlessLinesIgnored(o: Oracle, depth: nat, script: seq<Line>, w: World)
    requires depth > 0
    ensures var tidy := Tidy(false, script);
      (exists k :: Halts(o, depth, script, w, k)) <==> (exists j :: Halts(o, depth, tidy, w, j))
    ensures var tidy := Tidy(false, script);
      forall k, j :: Halts(o, depth, script, w, k) && Halts(o, depth, tidy, w, j) ==>
        var (s, t) := (RunText(o, depth, script, w, k), RunText(o, depth, tidy, w, j));
        && WorldOf(s) == WorldOf(t) && s.errors == t.errors
        && s.iendx == t.iendx && s.ie == t.ie
        && s.lpndx == t.lpndx && |s.lp| == |t.lp|
        && forall i :: 0 <= i < |s.lp| ==>
             s.lp[i].state == t.lp[i].state && s.lp[i].enable == t.lp[i].enable && s.lp[i].iendx == t.lp[i].iendx
  {
    hide RunText, Tidy, Halts;
    TextsAgree(o, depth, false, script, w);
  }

  /** `script` is a way to write `p`. */
  predicate Written(script: seq<Line>, p: Prog) {
    WellFormed(p) && Tidy(true, script) == Print(p)
  }

  /** Every way to write a program runs as the program means, whatever its commands do, as
      long as the meaning stays on the supported path: the machine ends if and only if the
      meaning does, and then in the same world and with both stacks as at the start; and no
      line is rejected, whether it ends or not. */
  lemma WrittenMeansProgram(o: Oracle, depth: nat, script: seq<Line>, p: Prog, w: World)
    requires Written(script, p) && Nests(depth, p) && OnPath(o, p, w)
    ensures (exists k :: Halts(o, depth, script, w, k)) <==> (exists fuel :: Ends(o, p, w, fuel))
    ensures forall k, fuel :: Halts(o, depth, script, w, k) && Ends(o, p, w, fuel) ==>
      && WorldOf(RunText(o, depth, script, w, k)) == Exec(o, Outside, p, w, fuel).w
      && BothStacksBack(Start(depth, w.trace, w.fail), RunText(o, depth, script, w, k))
    ensures forall k: nat :: RunText(o, depth, script, w, k).errors == 0
  {
    hide Step, Steps, Tidy, Alike, Clean, Halts, Print, BothStacksBack;
    var s := Start(depth, w.trace, w.fail);
    PrintedClean(o, depth, p, w);
    TextsAgree(o, depth, true, script, w);
    forall fuel | Ends(o, p, w, fuel)
      ensures exists j :: Halts(o, depth, Print(p), w, j)
    {
      var j := PrintedEnds(o, depth, p, w, fuel);
    }
    forall j | Halts(o, depth, Print(p), w, j)
      ensures Ends(o, p, w, j)
    {
      PrintedEnded(o, depth, p, w, j);
    }
    forall k, fuel | Halts(o, depth, script, w, k) && Ends(o, p, w, fuel)
      ensures WorldOf(RunText(o, depth, script, w, k)) == Exec(o, Outside, p, w, fuel).w
      ensures BothStacksBack(s, RunText(o, depth, script, w, k))
    {
      var j := PrintedEnds(o, depth, p, w, fuel);
      AlikeBack(true, script, s, RunText(o, depth, script, w, k), RunText(o, depth, Print(p), w, j));
    }
    forall k: nat ensures RunText(o, depth, script, w, k).errors == 0 {
      var j := MeetSomewhere(o, depth, true, script, w, k);
      AlikeErrors(true, script, RunText(o, depth, script, w, k), RunText(o, depth, Print(p), w, j));
      NothingRejected(o, depth, p, w, j);
    }
  }

  /** No construct is open in `t` that is not open in `s`, and the `if` frames that are open
      in `s` and the states of its loops are as they were. */
  ghost predicate BothStacksBack(s: Np, t: Np) {
    && t.iendx == s.iendx && t.lpndx == s.lpndx && |t.ie| == |s.ie| && |t.lp| == |s.lp|
    && (forall k :: 0 <= k <= s.iendx < |s.ie| ==> t.ie[k] == s.ie[k])
    && (forall k :: 0 <= k <= s.lpndx < |s.lp| ==>
          t.lp[k].state == s.lp[k].state && t.lp[k].enable == s.lp[k].enable && t.lp[k].iendx == s.lp[k].iendx)
  }

  lemma AlikeBack(split: bool, script: seq<Line>, s: Np, t: Np, u: Np)
    requires s.iendx < |s.ie| && s.lpndx < |s.lp| && Alike(split, script, t, u) && Restored(s, u)
    ensures BothStacksBack(s, t) && WorldOf(t) == WorldOf(u)
  {
    hide TidyIndex;
  }

  lemma AlikeErrors(split: bool, script: seq<Line>, s: Np, t: Np)
    requires Alike(split, script, s, t)
    ensures s.errors == t.errors
  {
  }

  lemma PrintedClean(o: Oracle, depth: nat, p: Prog, w: World)
    requires WellFormed(p) && Nests(depth, p) && OnPath(o, p, w)
    ensures Clean(o, depth, Print(p), Start(depth, w.trace, w.fail))
  {
    hide Step, Steps;
    forall j: nat ensures Steps(o, depth, Print(p), j, Start(depth, w.trace, w.fail)).errors == 0 {
      NothingRejected(o, depth, p, w, j);
    }
  }

  lemma PrintedEnds(o: Oracle, depth: nat, p: Prog, w: World, fuel: nat) returns (j: nat)
    requires WellFormed(p) && Nests(depth, p) && Ends(o, p, w, fuel)
    ensures Halts(o, depth, Print(p), w, j)
    ensures WorldOf(RunText(o, depth, Print(p), w, j)) == Exec(o, Outside, p, w, fuel).w
    ensures Restored(Start(depth, w.trace, w.fail), RunText(o, depth, Print(p), w, j))
  {
    hide Step, Steps, Print;
    j := MeaningPreserved(o, depth, p, w, fuel);
  }

  lemma PrintedEnded(o: Oracle, depth: nat, p: Prog, w: World, j: nat)
    requires WellFormed(p) && Nests(depth, p) && OnPath(o, p, w) && Halts(o, depth, Print(p), w, j)
    ensures Ends(o, p, w, j)
  {
    hide Step, Steps, Print;
    assert Exec(o, Outside, p, w, j) != Off;
    MeaningReflected(o, depth, p, w, j);
  }

  // ---------- Ways to write a program ----------

  lemma TidyIf(neg: bool, cond: Line, thn: seq<Line>, els: seq<Line>)
    requires cond != [] && Tidy(true, thn) == thn && Tidy(true, els) == els
    ensures var script := [[KwIf] + (if neg then [Bang] else []) + cond] + ([[KwThen]] + (thn + (els + [[KwFi]])));
      Tidy(true, script) == script
  {
    hide Tidy;
    var line := [KwIf] + (if neg then [Bang] else []) + cond;
    TidyLine(true, line);
    TidyLine(true, [KwThen]);
    TidyLine(true, [KwFi]);
    TidyPlus(true, els, [[KwFi]]);
    TidyPlus(true, thn, els + [[KwFi]]);
    TidyPlus(true, [[KwThen]], thn + (els + [[KwFi]]));
    TidyPlus(true, [line], [[KwThen]] + (thn + (els + [[KwFi]])));
  }

  lemma TidyLoop(until: bool, cond: Line, body: seq<Line>)
    requires cond != [] && Tidy(true, body) == body
    ensures var script := [[if until then KwUntil else KwWhile] + cond] + ([[KwDo]] + (body + [[KwDone]]));
      Tidy(true, script) == script
  {
    hide Tidy;
    var line := [if until then KwUntil else KwWhile] + cond;
    TidyLine(true, line);
    TidyLine(true, [KwDo]);
    TidyLine(true, [KwDone]);
    TidyPlus(true, body, [[KwDone]]);
    TidyPlus(true, [[KwDo]], body + [[KwDone]]);
    TidyPlus(true, [line], [[KwDo]] + (body + [[KwDone]]));
  }

  lemma TidyNothing()
    ensures Tidy(true, []) == []
  {
  }

  /** A printed program is a way to write it. */
  lemma {:induction false} PrintedIsWritten(p: Prog)
    requires WellFormed(p)
    ensures Written(Print(p), p)
  {
    hide Tidy;
    match p
    case Nop => TidyNothing();
    case Simple(argv) => TidyLine(true, argv);
    case Break => TidyLine(true, [KwBreak]);
    case Then(a, b) =>
      PrintedIsWritten(a);
      PrintedIsWritten(b);
      TidyPlus(true, Print(a), Print(b));
    case If(neg, cond, thn, els) =>
      PrintedIsWritten(thn);
      if els.Some? {
        PrintedIsWritten(els.value);
        TidyLine(true, [KwElse]);
        TidyPlus(true, [[KwElse]], Print(els.value));
      } else {
        TidyNothing();
      }
      TidyIf(neg, cond, Print(thn), PrintElse(els));
    case Loop(until, cond, body) =>
      PrintedIsWritten(body);
      TidyLoop(until, cond, Print(body));
  }

  /** A line without a word may be put in anywhere. */
  lemma WrittenWithBlank(a: seq<Line>, b: seq<Line>, p: Prog)
    ensures Written(a + [[]] + b, p) <==> Written(a + b, p)
  {
    hide Tidy;
    TidyPlus(true, a, b);
    TidyPlus(true, a + [[]], b);
    TidyPlus(true, a, [[]]);
    TidyLine(true, []);
  }

  /** A command may be put on the line of the `do`, `then` or `else` before it. */
  lemma WrittenOnOneLine(a: seq<Line>, kw: Word, line: Line, b: seq<Line>, p: Prog)
    requires Joined([kw] + line) && !Joined(line)
    ensures Written(a + [[kw] + line] + b, p) <==> Written(a + [[kw], line] + b, p)
  {
    hide Tidy;
    var (one, two) := ([[kw] + line], [[kw], line]);
    assert ([kw] + line)[1..] == line;
    TidyLine(true, [kw] + line);
    TidyLine(true, [kw]);
    TidyLine(true, line);
    assert two == [[kw]] + [line];
    TidyPlus(true, [[kw]], [line]);
    TidyPlus(true, a, one);
    TidyPlus(true, a + one, b);
    TidyPlus(true, a, two);
    TidyPlus(true, a + two, b);
  }
}
