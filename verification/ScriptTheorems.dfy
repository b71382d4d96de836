/** The results about whole scripts. */
module ScriptTheorems {
  import opened ScriptMachine
  import opened ScriptMeaning
  import opened ScriptSimulation

  /** The run of the script text of `p`, `k` lines in. */
  function Run(o: Oracle, depth: nat, p: Prog, w: World, k: nat): Np
    requires depth > 0
  {
    Steps(o, depth, Print(p), k, Start(depth, w.trace, w.fail))
  }

  ghost predicate Finished(o: Oracle, depth: nat, p: Prog, w: World, k: nat)
    requires depth > 0
  {
    Run(o, depth, p, w, k).next >= |Print(p)|
  }

  predicate Ends(o: Oracle, p: Prog, w: World, fuel: nat) {
    Exec(o, Outside, p, w, fuel).Done?
  }

  predicate Nests(depth: nat, p: Prog) {
    IfDepth(p) < depth && LoopDepth(p) < depth
  }

  lemma {:induction false} HaltedStays(o: Oracle, depth: nat, script: seq<Line>, s: Np, k: nat)
    requires Safe(depth, s) && s.next >= |script|
    ensures Steps(o, depth, script, k, s) == s
    decreases k
  {
    if k > 0 {
      assert Step(o, depth, script, s) == s;
      HaltedStays(o, depth, script, s, k - 1);
    }
  }

  /** A finished run never moves again. */
  lemma FinishedStays(o: Oracle, depth: nat, p: Prog, w: World, j: nat, k: nat)
    requires depth > 0 && j <= k && Finished(o, depth, p, w, j)
    ensures Run(o, depth, p, w, k) == Run(o, depth, p, w, j)
  {
    hide Step, Steps;
    StepsPlus(o, depth, Print(p), j, k - j, Start(depth, w.trace, w.fail));
    HaltedStays(o, depth, Print(p), Run(o, depth, p, w, j), k - j);
  }

  /** Meaning preservation, forwards.  If the meaning ends, the machine gets to the end
      of the script having executed the same commands with the same results, with the
      same `$?`, with both stacks as at the start and no line rejected.  If the meaning runs
      out of fuel, the machine is still inside the script after that many lines, and has
      rejected none. */
  lemma MeaningPreserved(o: Oracle, depth: nat, p: Prog, w: World, fuel: nat) returns (k: nat)
    requires WellFormed(p) && Nests(depth, p)
    ensures
      var t := Run(o, depth, p, w, k);
      var s := Start(depth, w.trace, w.fail);
      match Exec(o, Outside, p, w, fuel)
      case Done(w1, _) => t.next == |Print(p)| && WorldOf(t) == w1 && Restored(s, t)
      case OutOfFuel => !Finished(o, depth, p, w, fuel) && k >= fuel && t.errors == 0
      case Off => true
  {
    hide Step, Steps;
    var s := Start(depth, w.trace, w.fail);
    var script := Print(p);
    assert At(script, 0, script) by { assert script[0..|script|] == script; }
    var t;
    k, t := Simulate(o, depth, script, s, p, fuel);
    assert PlaceOf(s) == Outside && WorldOf(s) == w;
    assert Reaches(o, depth, script, s, k, t);
    if Exec(o, Outside, p, w, fuel) == OutOfFuel && Finished(o, depth, p, w, fuel) {
      FinishedStays(o, depth, p, w, fuel, k);
    }
  }

  /** Meaning preservation, backwards.  Whenever the machine gets to the end of the
      script, the meaning ends too, with the same commands, results and `$?`, unless
      the run left the supported path. */
  lemma MeaningReflected(o: Oracle, depth: nat, p: Prog, w: World, k: nat)
    requires WellFormed(p) && Nests(depth, p)
    requires Finished(o, depth, p, w, k) && Exec(o, Outside, p, w, k) != Off
    ensures Exec(o, Outside, p, w, k).Done?
    ensures WorldOf(Run(o, depth, p, w, k)) == Exec(o, Outside, p, w, k).w
    ensures Restored(Start(depth, w.trace, w.fail), Run(o, depth, p, w, k))
    ensures Run(o, depth, p, w, k).next == |Print(p)|
  {
    hide Step, Steps, Run;
    var j := MeaningPreserved(o, depth, p, w, k);
    assert Finished(o, depth, p, w, j);
    FinishedStays(o, depth, p, w, if j < k then j else k, if j < k then k else j);
  }

  /** For scripts of the supported shape the machine and the meaning agree on every
      input: one ends exactly when the other does, and then in the same world. */
  lemma ScriptMeansProgram(o: Oracle, depth: nat, p: Prog, w: World)
    requires WellFormed(p) && Nests(depth, p) && Supported(Outside, p)
    ensures (exists k :: Finished(o, depth, p, w, k)) <==> (exists fuel :: Ends(o, p, w, fuel))
    ensures forall k, fuel :: Finished(o, depth, p, w, k) && Ends(o, p, w, fuel) ==>
      WorldOf(Run(o, depth, p, w, k)) == Exec(o, Outside, p, w, fuel).w
  {
    hide Step, Steps, Run;
    forall k | Finished(o, depth, p, w, k)
      ensures Ends(o, p, w, k)
    {
      SupportedStaysOn(o, Outside, p, w, k);
      MeaningReflected(o, depth, p, w, k);
    }
    forall fuel | Ends(o, p, w, fuel)
      ensures exists k :: Finished(o, depth, p, w, k)
    {
      var k := MeaningPreserved(o, depth, p, w, fuel);
      assert Finished(o, depth, p, w, k);
    }
    forall k, fuel | Finished(o, depth, p, w, k) && Ends(o, p, w, fuel)
      ensures WorldOf(Run(o, depth, p, w, k)) == Exec(o, Outside, p, w, fuel).w
    {
      var j := MeaningPreserved(o, depth, p, w, fuel);
      assert Finished(o, depth, p, w, j);
      FinishedStays(o, depth, p, w, if j < k then j else k, if j < k then k else j);
    }
  }

  // ---------- Rejected lines ----------

  lemma ErrorsCounted(o: Oracle, depth: nat, script: seq<Line>, s: Np)
    requires Safe(depth, s)
    ensures Step(o, depth, script, s).errors >= s.errors
  {
    hide NshLoop, NshItef;
  }

  lemma {:induction false} ErrorsGrow(o: Oracle, depth: nat, script: seq<Line>, s: Np, k: nat)
    requires Safe(depth, s)
    ensures Steps(o, depth, script, k, s).errors >= s.errors
    decreases k
  {
    hide Step;
    if k > 0 {
      ErrorsCounted(o, depth, script, s);
      ErrorsGrow(o, depth, script, Step(o, depth, script, s), k - 1);
    }
  }

  /** The meaning never leaves the supported path, as it does not for any script of the
      supported shape (`SupportedStaysOn`). */
  ghost predicate OnPath(o: Oracle, p: Prog, w: World) {
    forall fuel: nat :: Exec(o, Outside, p, w, fuel) != Off
  }

  /** On the supported path no line is ever rejected, whether the script ends or not. */
  lemma NothingRejected(o: Oracle, depth: nat, p: Prog, w: World, k: nat)
    requires WellFormed(p) && Nests(depth, p) && OnPath(o, p, w)
    ensures Run(o, depth, p, w, k).errors == 0
  {
    hide Step, Steps;
    assert Exec(o, Outside, p, w, k) != Off;
    var j := MeaningPreserved(o, depth, p, w, k);
    if j < k {
      FinishedStays(o, depth, p, w, j, k);
    } else {
      StepsPlus(o, depth, Print(p), k, j - k, Start(depth, w.trace, w.fail));
      ErrorsGrow(o, depth, Print(p), Run(o, depth, p, w, k), j - k);
    }
  }

  // ---------- Arbitrary lines ----------

  /** However malformed the script and whatever its commands do, after any number of
      lines both indices are inside their stacks, and the two branches of `done` and
      `fi` that would pop frame 0 cannot be taken. */
  lemma StackSafety(o: Oracle, depth: nat, script: seq<Line>, w: World, k: nat)
    requires depth > 0
    ensures var t := Steps(o, depth, script, k, Start(depth, w.trace, w.fail));
      && Safe(depth, t)
      && (t.TopLoop().state != LoopNormal ==> t.lpndx >= 1)
      && (t.TopIf().state != ItefNormal ==> t.iendx >= 1)
  {
    hide Step, Steps;
  }

  /** No command follows a keyword. */
  predicate NothingToRun(words: Line) {
    |words| == 0 || words[0] == Text("")
  }

  /** What nsh_loop does not accept. */
  predicate LoopRejects(depth: nat, s: Np, line: Line)
    requires s.iendx < |s.ie| && s.lpndx < |s.lp|
  {
    var awaiting := s.TopLoop().state in {LoopWhile, LoopUntil};
    && line != []
    && (|| (awaiting && line[0] != KwDo)
        || (!awaiting && line[0] == KwDo)
        || (line[0] in {KwWhile, KwUntil}
            && (NothingToRun(line[1..]) || s.TopIf().state == ItefIf || s.foffs < 0 || s.lpndx + 1 == depth))
        || (line[0] == KwDone && (s.TopLoop().state != LoopDo || |line| > 1)))
  }

  /** What nsh_itef does not accept. */
  predicate ItefRejects(depth: nat, s: Np, words: Line)
    requires s.iendx < |s.ie|
  {
    var state := s.TopIf().state;
    && words != []
    && (|| (state == ItefIf && words[0] != KwThen)
        || (state != ItefIf && words[0] == KwThen)
        || (words[0] == KwElse && state != ItefThen)
        || (words[0] == KwFi && (state !in {ItefThen, ItefElse} || |words| > 1))
        || (words[0] == KwIf
            && (|| NothingToRun(words[1..]) || s.iendx + 1 == depth
                || (words[1] == Bang && NothingToRun(words[2..])))))
  }

  /** The words behind a loop keyword, or all of them. */
  function Behind(line: Line): Line {
    if line != [] && line[0] in {KwWhile, KwUntil, KwDo, KwDone} then line[1..] else line
  }

  lemma LoopRejectsIff(depth: nat, s: Np, line: Line)
    requires Safe(depth, s)
    ensures var l := NshLoop(depth, s, line);
      l.ok == !LoopRejects(depth, s, line) && (l.ok ==> l.words == Behind(line))
  {
  }

  lemma ItefRejectsIff(depth: nat, s: Np, words: Line)
    requires Safe(depth, s)
    ensures NshItef(depth, s, words).ok == !ItefRejects(depth, s, words)
  {
  }

  /** When a line is rejected, for every line in every state. */
  lemma RejectedIff(o: Oracle, depth: nat, s: Np, line: Line)
    requires Safe(depth, s)
    ensures ParseCommand(o, depth, s, line).errors ==
      if LoopRejects(depth, s, line) || ItefRejects(depth, s, Behind(line)) then s.errors + 1 else s.errors
  {
    hide NshLoop, NshItef, LoopRejects, ItefRejects, Behind;
    LoopRejectsIff(depth, s, line);
    var l := NshLoop(depth, s, line);
    if l.ok {
      ItefRejectsIff(depth, l.s, l.words);
      ItefRejectsSame(depth, s, l.s, l.words);
    }
  }

  lemma ItefRejectsSame(depth: nat, s: Np, t: Np, words: Line)
    requires s.iendx < |s.ie| && t.ie == s.ie && t.iendx == s.iendx
    ensures ItefRejects(depth, s, words) == ItefRejects(depth, t, words)
  {
  }

  /** A line that nsh_loop or nsh_itef rejects runs no command, leaves the stack it was
      rejected by at frame 0, and sets `$?` unless its failure went to a condition that was
      waiting for a result. */
  lemma RejectedLine(o: Oracle, depth: nat, s: Np, line: Line)
    requires Safe(depth, s)
    ensures var l := NshLoop(depth, s, line);
      var t := ParseCommand(o, depth, s, line);
      && (!l.ok ==> t.lpndx == 0 && t.TopLoop().state == LoopNormal && t.TopLoop().enable && t.trace == s.trace
                    && t.iendx == s.iendx && t.fail == (s.TopIf().state != ItefIf))
      && (l.ok && !NshItef(depth, l.s, l.words).ok ==>
            && t.iendx == 0 && t.TopIf() == NORMAL_IF && t.trace == s.trace && t.lpndx == l.s.lpndx
            && t.fail == (l.s.TopLoop().state !in {LoopWhile, LoopUntil}))
  {
  }
}
