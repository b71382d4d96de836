/** The simulation: a block of script lines, started in any state that fits it, takes
    the machine through exactly the commands of its meaning and gives both stacks back. */
module ScriptSimulation {
  import opened Wrappers
  import opened ScriptMachine
  import opened ScriptMeaning

  lemma {:induction false} StepsPlus(o: Oracle, depth: nat, script: seq<Line>, j: nat, k: nat, s: Np)
    requires Safe(depth, s)
    ensures Steps(o, depth, script, j + k, s) == Steps(o, depth, script, k, Steps(o, depth, script, j, s))
    decreases j
  {
    hide Step;
    if j > 0 {
      StepsPlus(o, depth, script, j - 1, k, Step(o, depth, script, s));
    }
  }

  /** `t` is reached from `s` in `k` steps. */
  ghost predicate Reaches(o: Oracle, depth: nat, script: seq<Line>, s: Np, k: nat, t: Np) {
    Safe(depth, s) && Steps(o, depth, script, k, s) == t
  }

  lemma ReachesStep(o: Oracle, depth: nat, script: seq<Line>, s: Np, t: Np)
    requires Safe(depth, s) && Step(o, depth, script, s) == t
    ensures Reaches(o, depth, script, s, 1, t)
  {
    assert Steps(o, depth, script, 1, s) == Steps(o, depth, script, 0, t);
  }

  lemma ReachesNothing(o: Oracle, depth: nat, script: seq<Line>, s: Np)
    requires Safe(depth, s)
    ensures Reaches(o, depth, script, s, 0, s)
  {
  }

  lemma ReachesThen(o: Oracle, depth: nat, script: seq<Line>, s: Np, j: nat, t: Np, k: nat, u: Np)
    requires Reaches(o, depth, script, s, j, t) && Reaches(o, depth, script, t, k, u)
    ensures Reaches(o, depth, script, s, j + k, u)
  {
    StepsPlus(o, depth, script, j, k, s);
  }

  // ---------- Entering and leaving a construct ----------

  /** `if` and `then`: from before the statement to before its first branch. */
  lemma EnterIf(o: Oracle, depth: nat, script: seq<Line>, s: Np, p: Prog) returns (t: Np)
    requires p.If? && Between(depth, s) && Fits(depth, s, p) && At(script, s.next, Print(p))
    ensures Reaches(o, depth, script, s, 2, t) && Between(depth, t)
    ensures t.next == s.next + 2 && t.iendx == s.iendx + 1 && Restored(s, t.(iendx := s.iendx))
    ensures t.TopIf().state == ItefThen && t.TopIf().disabled == !CmdEnabled(s)
    ensures CmdEnabled(s) ==> t.TopIf().ifcond == (p.neg != Fails(o, p.cond, WorldOf(s)))
    ensures WorldOf(t) ==
            if CmdEnabled(s) then World(Traced(o, p.cond, WorldOf(s)), false) else WorldOf(s)
  {
    hide Step, Steps, Reaches, At, Print;
    AtIf(script, s.next, p);
    var m := Step(o, depth, script, s);
    LineIf(o, depth, script, s, p.neg, p.cond);
    ReachesStep(o, depth, script, s, m);
    t := Step(o, depth, script, m);
    LineThen(o, depth, script, m);
    ReachesStep(o, depth, script, m, t);
    ReachesThen(o, depth, script, s, 1, m, 1, t);
  }

  /** `fi`, `k` steps after the statement began. */
  lemma LeaveIf(o: Oracle, depth: nat, script: seq<Line>, s: Np, k: nat, m: Np) returns (t: Np)
    requires Between(depth, s) && Reaches(o, depth, script, s, k, m) && Between(depth, m)
    requires m.TopIf().state == ItefThen || m.TopIf().state == ItefElse
    requires At(script, m.next, [[KwFi]])
    requires m.iendx == s.iendx + 1 && Restored(s, m.(iendx := s.iendx))
    ensures Reaches(o, depth, script, s, k + 1, t) && Safe(depth, t)
    ensures t.next == m.next + 1 && Restored(s, t) && WorldOf(t) == WorldOf(m)
  {
    hide Step, Steps, Reaches, At;
    t := Step(o, depth, script, m);
    LineFi(o, depth, script, m);
    ReachesStep(o, depth, script, m, t);
    ReachesThen(o, depth, script, s, k, m, 1, t);
  }

  /** `while` or `until`, then `do`: from before the statement to before its body. */
  lemma EnterLoop(o: Oracle, depth: nat, script: seq<Line>, s: Np, p: Prog) returns (t: Np)
    requires p.Loop? && Between(depth, s) && Fits(depth, s, p) && At(script, s.next, Print(p))
    ensures Reaches(o, depth, script, s, 2, t) && Between(depth, t)
    ensures t.next == s.next + 2 && t.lpndx == s.lpndx + 1 && Restored(s, t.(lpndx := s.lpndx))
    ensures t.TopLoop().state == LoopDo && t.TopLoop().iendx == s.iendx && t.TopLoop().topoffs == s.next
    ensures t.TopLoop().enable == (ItefEnabled(s) && Fails(o, p.cond, WorldOf(s)) == p.until)
    ensures WorldOf(t) ==
            if ItefEnabled(s) then World(Traced(o, p.cond, WorldOf(s)), false) else WorldOf(s)
  {
    hide Step, Steps, Reaches, At, Print;
    AtLoop(script, s.next, p);
    var m := Step(o, depth, script, s);
    LineLoop(o, depth, script, s, p.until, p.cond);
    ReachesStep(o, depth, script, s, m);
    t := Step(o, depth, script, m);
    LineDo(o, depth, script, m);
    ReachesStep(o, depth, script, m, t);
    ReachesThen(o, depth, script, s, 1, m, 1, t);
  }

  /** `done`, `k` steps after the statement began: back to its first line while the loop
      is enabled, and on to the line after it otherwise. */
  lemma LeaveLoop(o: Oracle, depth: nat, script: seq<Line>, s: Np, k: nat, m: Np) returns (t: Np)
    requires Between(depth, s) && Reaches(o, depth, script, s, k, m) && Between(depth, m)
    requires m.TopLoop().state == LoopDo && m.TopLoop().topoffs == s.next
    requires At(script, m.next, [[KwDone]])
    requires m.lpndx == s.lpndx + 1 && Restored(s, m.(lpndx := s.lpndx))
    ensures Reaches(o, depth, script, s, k + 1, t) && Safe(depth, t)
    ensures t.next == (if m.TopLoop().enable then s.next else m.next + 1)
    ensures Restored(s, t) && WorldOf(t) == WorldOf(m)
  {
    hide Step, Steps, Reaches, At;
    t := Step(o, depth, script, m);
    LineDone(o, depth, script, m);
    ReachesStep(o, depth, script, m, t);
    ReachesThen(o, depth, script, s, k, m, 1, t);
  }

  // ---------- Skipping ----------

  /** While commands are disabled a block is walked through line by line: nothing runs,
      nothing is observed, and both stacks come back. */
  lemma {:induction false} Skip(o: Oracle, depth: nat, script: seq<Line>, s: Np, p: Prog) returns (t: Np)
    requires Between(depth, s) && Fits(depth, s, p) && At(script, s.next, Print(p))
    requires !CmdEnabled(s)
    requires ItefEnabled(s) ==> SkipSafe(p)
    ensures Reaches(o, depth, script, s, |Print(p)|, t)
    ensures t.next == s.next + |Print(p)| && Restored(s, t) && WorldOf(t) == WorldOf(s)
    ensures Safe(depth, t)
    decreases p, 1
  {
    hide Step, Steps;
    match p
    case Nop =>
      t := s;
      ReachesNothing(o, depth, script, s);
    case Simple(argv) =>
      t := Step(o, depth, script, s);
      LineSimple(o, depth, script, s, argv);
      ReachesStep(o, depth, script, s, t);
    case Break =>
      t := Step(o, depth, script, s);
      LineBreak(o, depth, script, s);
      ReachesStep(o, depth, script, s, t);
    case Then(a, b) =>
      AtSplit(script, s.next, Print(a), Print(b));
      var m := Skip(o, depth, script, s, a);
      t := Skip(o, depth, script, m, b);
      ReachesThen(o, depth, script, s, |Print(a)|, m, |Print(b)|, t);
    case If(neg, cond, thn, els) =>
      t := SkipIf(o, depth, script, s, p);
    case Loop(until, cond, body) =>
      t := SkipLoop(o, depth, script, s, p);
  }

  lemma {:induction false} SkipIf(o: Oracle, depth: nat, script: seq<Line>, s: Np, p: Prog) returns (t: Np)
    requires p.If? && Between(depth, s) && Fits(depth, s, p) && At(script, s.next, Print(p))
    requires !CmdEnabled(s)
    ensures Reaches(o, depth, script, s, |Print(p)|, t)
    ensures t.next == s.next + |Print(p)| && Restored(s, t) && WorldOf(t) == WorldOf(s)
    ensures Safe(depth, t)
    decreases p, 0
  {
    hide Step, Steps, At, Reaches, Print;
    AtIf(script, s.next, p);
    var m := EnterIf(o, depth, script, s, p);
    var n := Skip(o, depth, script, m, p.thn);
    ReachesThen(o, depth, script, s, 2, m, |Print(p.thn)|, n);
    var q := SkipElse(o, depth, script, n, p.els);
    ReachesThen(o, depth, script, s, 2 + |Print(p.thn)|, n, |PrintElse(p.els)|, q);
    t := LeaveIf(o, depth, script, s, 2 + |Print(p.thn)| + |PrintElse(p.els)|, q);
  }

  /** The optional `else` part, skipped in a state that stands before it. */
  lemma {:induction false} SkipElse(o: Oracle, depth: nat, script: seq<Line>, s: Np, els: Option<Prog>)
    returns (t: Np)
    requires Between(depth, s) && s.TopIf().state == ItefThen && At(script, s.next, PrintElse(els))
    requires els.Some? ==> Fits(depth, s, els.value)
    requires s.TopIf().disabled || !s.TopIf().ifcond
    ensures Reaches(o, depth, script, s, |PrintElse(els)|, t)
    ensures t.next == s.next + |PrintElse(els)| && WorldOf(t) == WorldOf(s)
    ensures Safe(depth, t) && (t.TopIf().state == ItefThen || t.TopIf().state == ItefElse)
    ensures s.iendx > 0 && t.iendx == s.iendx && Restored(s.(iendx := s.iendx - 1), t.(iendx := s.iendx - 1))
    decreases els, 1
  {
    hide Step, Steps;
    match els
    case None =>
      t := s;
      ReachesNothing(o, depth, script, s);
    case Some(e) =>
      AtSplit(script, s.next, [[KwElse]], Print(e));
      var m := Step(o, depth, script, s);
      LineElse(o, depth, script, s);
      ReachesStep(o, depth, script, s, m);
      t := Skip(o, depth, script, m, e);
      ReachesThen(o, depth, script, s, 1, m, |Print(e)|, t);
  }

  lemma {:induction false} SkipLoop(o: Oracle, depth: nat, script: seq<Line>, s: Np, p: Prog) returns (t: Np)
    requires p.Loop? && Between(depth, s) && Fits(depth, s, p) && At(script, s.next, Print(p))
    requires !ItefEnabled(s)
    ensures Reaches(o, depth, script, s, |Print(p)|, t)
    ensures t.next == s.next + |Print(p)| && Restored(s, t) && WorldOf(t) == WorldOf(s)
    ensures Safe(depth, t)
    decreases p, 0
  {
    hide Step, Steps, At, Reaches, Print;
    AtLoop(script, s.next, p);
    var m := EnterLoop(o, depth, script, s, p);
    var n := Skip(o, depth, script, m, p.body);
    ReachesThen(o, depth, script, s, 2, m, |Print(p.body)|, n);
    t := LeaveLoop(o, depth, script, s, 2 + |Print(p.body)|, n);
  }

  // ---------- Executing ----------

  /** The simulation, for every block in every enabled state that fits it. */
  lemma {:induction false} Simulate(o: Oracle, depth: nat, script: seq<Line>, s: Np, p: Prog, fuel: nat)
    returns (k: nat, t: Np)
    requires Between(depth, s) && CmdEnabled(s) && Fits(depth, s, p) && At(script, s.next, Print(p))
    ensures Reaches(o, depth, script, s, k, t) && Safe(depth, t)
    ensures Matches(s, p, Exec(o, PlaceOf(s), p, WorldOf(s), fuel), fuel, k, t)
    decreases fuel, p, 1
  {
    hide Step, Steps, Reaches, At;
    match p
    case Nop =>
      k, t := 0, s;
      ReachesNothing(o, depth, script, s);
    case Simple(argv) =>
      k, t := 1, Step(o, depth, script, s);
      LineSimple(o, depth, script, s, argv);
      ReachesStep(o, depth, script, s, t);
    case Break =>
      k, t := 1, Step(o, depth, script, s);
      LineBreak(o, depth, script, s);
      ReachesStep(o, depth, script, s, t);
    case Then(a, b) =>
      k, t := SimulateThen(o, depth, script, s, p, fuel);
    case If(_, _, _, _) =>
      k, t := SimulateIf(o, depth, script, s, p, fuel);
    case Loop(_, _, _) =>
      k, t := SimulateLoop(o, depth, script, s, p, fuel);
  }

  /** How the state `t`, `k` steps after `s`, relates to the outcome of `p`: at the end of
      the block with the world of the meaning and both stacks as before (a `break` only
      disables the loop it stands in); or, when the fuel ran out, at least that many
      steps later and still inside the block. */
  ghost predicate Matches(s: Np, p: Prog, r: Outcome, fuel: nat, k: nat, t: Np)
    requires s.iendx < |s.ie| && s.lpndx < |s.lp|
  {
    match r
    case Done(w, broke) =>
      && t.next == s.next + |Print(p)| && WorldOf(t) == w
      && Restored(if broke then Disabled(s) else s, t)
      && (broke ==> PlaceOf(s) == InBody)
    case OutOfFuel => k >= fuel && t.errors == s.errors && s.next <= t.next < s.next + |Print(p)|
    case Off => true
  }

  /** Between the two statements of a sequence: a `break` in the first one leaves
      commands disabled, otherwise the state is as good as the first one. */
  lemma AfterFirst(depth: nat, s: Np, m: Np, p: Prog, broke: bool)
    requires Between(depth, s) && CmdEnabled(s) && Fits(depth, s, p) && Safe(depth, m)
    requires Restored(if broke then Disabled(s) else s, m)
    requires broke ==> PlaceOf(s) == InBody
    ensures Between(depth, m) && Fits(depth, m, p)
    ensures CmdEnabled(m) == !broke && m.errors == s.errors
    ensures !broke ==> PlaceOf(m) == PlaceOf(s)
  {
  }

  lemma RestoredTrans(s: Np, m: Np, t: Np)
    requires s.iendx < |s.ie| && s.lpndx < |s.lp|
    requires Restored(s, m) && Restored(m, t)
    ensures Restored(s, t)
  {
  }

  lemma DisabledTrans(s: Np, m: Np, t: Np)
    requires s.iendx < |s.ie| && s.lpndx < |s.lp|
    requires Restored(s, m) && Restored(Disabled(m), t)
    ensures Restored(Disabled(s), t)
  {
  }

  lemma {:induction false} SimulateThen(o: Oracle, depth: nat, script: seq<Line>, s: Np, p: Prog, fuel: nat)
    returns (k: nat, t: Np)
    requires p.Then? && Between(depth, s) && CmdEnabled(s) && Fits(depth, s, p) && At(script, s.next, Print(p))
    ensures Reaches(o, depth, script, s, k, t) && Safe(depth, t)
    ensures Matches(s, p, Exec(o, PlaceOf(s), p, WorldOf(s), fuel), fuel, k, t)
    decreases fuel, p, 0
  {
    hide Step, Steps, Reaches, At, Restored, CmdEnabled, PlaceOf;
    var Then(a, b) := p;
    AtSplit(script, s.next, Print(a), Print(b));
    var j, m := Simulate(o, depth, script, s, a, fuel);
    var r := Exec(o, PlaceOf(s), a, WorldOf(s), fuel);
    k, t := j, m;
    if r.Done? {
      AfterFirst(depth, s, m, b, r.broke);
      if r.broke {
        if SkipSafe(b) {
          t := Skip(o, depth, script, m, b);
          k := j + |Print(b)|;
          ReachesThen(o, depth, script, s, j, m, |Print(b)|, t);
          RestoredTrans(Disabled(s), m, t);
        }
      } else {
        var l;
        l, t := Simulate(o, depth, script, m, b, fuel);
        k := j + l;
        ReachesThen(o, depth, script, s, j, m, l, t);
        var r' := Exec(o, PlaceOf(m), b, WorldOf(m), fuel);
        if r'.Done? && r'.broke {
          DisabledTrans(s, m, t);
        } else if r'.Done? {
          RestoredTrans(s, m, t);
        }
      }
    }
  }

  /** The state at the start of the branches of an enabled conditional. */
  lemma BranchStart(depth: nat, s: Np, m: Np, p: Prog)
    requires p.If? && Between(depth, s) && CmdEnabled(s) && Fits(depth, s, p) && Between(depth, m)
    requires m.iendx == s.iendx + 1 && Restored(s, m.(iendx := s.iendx))
    requires m.TopIf().state == ItefThen && !m.TopIf().disabled
    ensures Fits(depth, m, p.thn) && (p.els.Some? ==> Fits(depth, m, p.els.value))
    ensures LoopEnabled(m) && CmdEnabled(m) == !m.TopIf().ifcond
    ensures PlaceOf(m) == BranchPlace(PlaceOf(s)) && m.errors == s.errors
  {
  }

  /** A branch leaves the frame of its conditional, and all below it, alone. */
  lemma BranchEnd(depth: nat, s: Np, m: Np, n: Np)
    requires Between(depth, s) && Between(depth, m) && m.TopIf().state == ItefThen && Safe(depth, n)
    requires m.iendx == s.iendx + 1 && Restored(s, m.(iendx := s.iendx)) && Restored(m, n)
    ensures Between(depth, n) && n.TopIf() == m.TopIf() && n.iendx == s.iendx + 1
    ensures Restored(s, n.(iendx := s.iendx))
    ensures LoopEnabled(n) == LoopEnabled(m) && PlaceOf(n) == PlaceOf(m)
  {
  }

  /** A conditional: the frame is pushed, the chosen branch runs and the other one is
      skipped between `then` and `fi`, and the frame is popped. */
  lemma {:induction false} SimulateIf(o: Oracle, depth: nat, script: seq<Line>, s: Np, p: Prog, fuel: nat)
    returns (k: nat, t: Np)
    requires p.If? && Between(depth, s) && CmdEnabled(s) && Fits(depth, s, p) && At(script, s.next, Print(p))
    ensures Reaches(o, depth, script, s, k, t) && Safe(depth, t)
    ensures Matches(s, p, Exec(o, PlaceOf(s), p, WorldOf(s), fuel), fuel, k, t)
    decreases fuel, p, 0
  {
    hide Step, Steps, Reaches, At, Restored, PlaceOf, Print;
    AtIf(script, s.next, p);
    var m := EnterIf(o, depth, script, s, p);
    BranchStart(depth, s, m, p);
    if m.TopIf().ifcond {
      var n := Skip(o, depth, script, m, p.thn);
      ReachesThen(o, depth, script, s, 2, m, |Print(p.thn)|, n);
      k, t := SimulateUntaken(o, depth, script, s, p, fuel, m, n);
    } else {
      var j, n := Simulate(o, depth, script, m, p.thn, fuel);
      ReachesThen(o, depth, script, s, 2, m, j, n);
      k, t := 2 + j, n;
      var r := Exec(o, PlaceOf(m), p.thn, WorldOf(m), fuel);
      if r.Done? {
        BranchEnd(depth, s, m, n);
        var q := SkipElse(o, depth, script, n, p.els);
        ReachesThen(o, depth, script, s, 2 + j, n, |PrintElse(p.els)|, q);
        k, t := LeaveElse(o, depth, script, s, 2 + j + |PrintElse(p.els)|, n, q);
      }
    }
  }

  /** From the end of a skipped `then` branch to the end of the conditional. */
  lemma {:induction false} SimulateUntaken(o: Oracle, depth: nat, script: seq<Line>, s: Np, p: Prog, fuel: nat,
                                           m: Np, n: Np)
    returns (k: nat, t: Np)
    requires p.If? && Between(depth, s) && CmdEnabled(s) && Fits(depth, s, p) && At(script, s.next, Print(p))
    requires Between(depth, m) && m.iendx == s.iendx + 1 && Restored(s, m.(iendx := s.iendx))
    requires m.TopIf().state == ItefThen && !m.TopIf().disabled && m.TopIf().ifcond
    requires Fails(o, p.cond, WorldOf(s)) != p.neg
    requires WorldOf(m) == World(Traced(o, p.cond, WorldOf(s)), false)
    requires Reaches(o, depth, script, s, 2 + |Print(p.thn)|, n) && Safe(depth, n)
    requires n.next == s.next + 2 + |Print(p.thn)| && Restored(m, n) && WorldOf(n) == WorldOf(m)
    ensures Reaches(o, depth, script, s, k, t) && Safe(depth, t)
    ensures Matches(s, p, Exec(o, PlaceOf(s), p, WorldOf(s), fuel), fuel, k, t)
    decreases fuel, p, 0, 0
  {
    hide Step, Steps, Reaches, At, Restored, PlaceOf, Print;
    AtIf(script, s.next, p);
    BranchStart(depth, s, m, p);
    BranchEnd(depth, s, m, n);
    var l, q := SimulateElse(o, depth, script, n, p.els, fuel);
    ReachesThen(o, depth, script, s, 2 + |Print(p.thn)|, n, l, q);
    k, t := 2 + |Print(p.thn)| + l, q;
    if p.els.None? || Exec(o, PlaceOf(n), p.els.value, WorldOf(n), fuel).Done? {
      k, t := LeaveElse(o, depth, script, s, k, n, q);
    }
  }

  /** `fi` after the `else` part. */
  lemma LeaveElse(o: Oracle, depth: nat, script: seq<Line>, s: Np, j: nat, n: Np, q: Np)
    returns (k: nat, t: Np)
    requires Between(depth, s) && Between(depth, n) && Safe(depth, q)
    requires Reaches(o, depth, script, s, j, q) && At(script, q.next, [[KwFi]])
    requires n.iendx == s.iendx + 1 && Restored(s, n.(iendx := s.iendx))
    requires q.TopIf().state == ItefThen || q.TopIf().state == ItefElse
    requires q.iendx == n.iendx && Restored(n.(iendx := s.iendx), q.(iendx := s.iendx))
    ensures k == j + 1 && Reaches(o, depth, script, s, k, t) && Safe(depth, t)
    ensures t.next == q.next + 1 && Restored(s, t) && WorldOf(t) == WorldOf(q)
  {
    hide Step, Steps, Reaches, At;
    k := j + 1;
    t := LeaveIf(o, depth, script, s, j, q);
  }

  /** The `else` part of a condition that was not met. */
  lemma {:induction false} SimulateElse(o: Oracle, depth: nat, script: seq<Line>, s: Np, els: Option<Prog>, fuel: nat)
    returns (k: nat, t: Np)
    requires Between(depth, s) && s.TopIf().state == ItefThen && At(script, s.next, PrintElse(els))
    requires !s.TopIf().disabled && s.TopIf().ifcond && LoopEnabled(s) && PlaceOf(s) != InBody
    requires els.Some? ==> Fits(depth, s, els.value)
    ensures s.iendx > 0
    ensures Reaches(o, depth, script, s, k, t) && Safe(depth, t)
    ensures
      var r := if els.Some? then Exec(o, PlaceOf(s), els.value, WorldOf(s), fuel) else Done(WorldOf(s), false);
      match r
      case Done(w, broke) =>
        && t.next == s.next + |PrintElse(els)| && WorldOf(t) == w && !broke
        && (t.TopIf().state == ItefThen || t.TopIf().state == ItefElse)
        && t.iendx == s.iendx && Restored(s.(iendx := s.iendx - 1), t.(iendx := s.iendx - 1))
      case OutOfFuel => k >= fuel && t.errors == s.errors && s.next <= t.next < s.next + |PrintElse(els)|
      case Off => true
    decreases fuel, els, 2
  {
    hide Step, Steps, Reaches, At;
    match els
    case None =>
      k, t := 0, s;
      ReachesNothing(o, depth, script, s);
    case Some(e) =>
      AtSplit(script, s.next, [[KwElse]], Print(e));
      var m := Step(o, depth, script, s);
      LineElse(o, depth, script, s);
      ReachesStep(o, depth, script, s, m);
      var j;
      j, t := Simulate(o, depth, script, m, e, fuel);
      k := 1 + j;
      ReachesThen(o, depth, script, s, 1, m, j, t);
  }

  lemma {:induction false} SimulateLoop(o: Oracle, depth: nat, script: seq<Line>, s: Np, p: Prog, fuel: nat)
    returns (k: nat, t: Np)
    requires p.Loop? && Between(depth, s) && CmdEnabled(s) && Fits(depth, s, p) && At(script, s.next, Print(p))
    ensures Reaches(o, depth, script, s, k, t) && Safe(depth, t)
    ensures Matches(s, p, Exec(o, PlaceOf(s), p, WorldOf(s), fuel), fuel, k, t)
    decreases fuel, p, 0
  {
    hide Step, Steps, Reaches, At, Restored, PlaceOf, Print, Fits, WellFormed, IfDepth, LoopDepth;
    AtLoop(script, s.next, p);
    if fuel == 0 {
      ReachesNothing(o, depth, script, s);
      return 0, s;
    }
    var m := EnterLoop(o, depth, script, s, p);
    BodyStart(depth, s, m, p);
    k, t := 2, m;
    if !m.TopLoop().enable {
      if SkipSafe(p.body) {
        var n := Skip(o, depth, script, m, p.body);
        ReachesThen(o, depth, script, s, 2, m, |Print(p.body)|, n);
        BodyEnd(depth, s, m, n, false);
        k := 2 + |Print(p.body)| + 1;
        t := LeaveLoop(o, depth, script, s, k - 1, n);
      }
    } else {
      var j, n := Simulate(o, depth, script, m, p.body, fuel - 1);
      ReachesThen(o, depth, script, s, 2, m, j, n);
      k, t := 2 + j, n;
      var r := Exec(o, InBody, p.body, WorldOf(m), fuel - 1);
      if r.Done? {
        BodyEnd(depth, s, m, n, r.broke);
        t := LeaveLoop(o, depth, script, s, k, n);
        k := k + 1;
        if !r.broke {
          k, t := SimulateAgain(o, depth, script, s, p, fuel, k, t);
        }
      }
    }
  }

  /** The state at the start of the body of a loop. */
  lemma BodyStart(depth: nat, s: Np, m: Np, p: Prog)
    requires p.Loop? && Between(depth, s) && CmdEnabled(s) && Fits(depth, s, p) && Between(depth, m)
    requires m.lpndx == s.lpndx + 1 && Restored(s, m.(lpndx := s.lpndx))
    requires m.TopLoop().state == LoopDo && m.TopLoop().iendx == s.iendx
    ensures Fits(depth, m, p.body) && ItefEnabled(m) && CmdEnabled(m) == m.TopLoop().enable
    ensures PlaceOf(m) == InBody && m.errors == s.errors
  {
  }

  /** A body leaves the frame of its loop alone, but for a `break`, and all below it. */
  lemma BodyEnd(depth: nat, s: Np, m: Np, n: Np, broke: bool)
    requires Between(depth, s) && Between(depth, m) && m.TopLoop().state == LoopDo && Safe(depth, n)
    requires m.lpndx == s.lpndx + 1 && Restored(s, m.(lpndx := s.lpndx))
    requires Restored(if broke then Disabled(m) else m, n)
    ensures Between(depth, n) && n.lpndx == s.lpndx + 1 && Restored(s, n.(lpndx := s.lpndx))
    ensures n.TopLoop() == if broke then m.TopLoop().(enable := false) else m.TopLoop()
  {
  }

  /** The remaining turns of a loop, from its first line on. */
  lemma {:induction false} SimulateAgain(o: Oracle, depth: nat, script: seq<Line>, s: Np, p: Prog, fuel: nat,
                                         j: nat, q: Np)
    returns (k: nat, t: Np)
    requires p.Loop? && Between(depth, s) && CmdEnabled(s) && Fits(depth, s, p) && At(script, s.next, Print(p))
    requires fuel > 0 && j > 0 && Reaches(o, depth, script, s, j, q) && Safe(depth, q)
    requires q.next == s.next && Restored(s, q)
    ensures Reaches(o, depth, script, s, k, t) && Safe(depth, t)
    ensures Matches(s, p, Exec(o, PlaceOf(s), p, WorldOf(q), fuel - 1), fuel, k, t)
    decreases fuel - 1, p, 1
  {
    hide Step, Steps, Reaches, At, Exec, Print;
    var l;
    l, t := SimulateLoop(o, depth, script, q, p, fuel - 1);
    ReachesThen(o, depth, script, s, j, q, l, t);
    k := j + l;
  }
}
