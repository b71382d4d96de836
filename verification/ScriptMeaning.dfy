/** What a structured script means, and the proof that the flag-and-stack machine of
    ScriptMachine does exactly that.

    The meaning is a fuelled big-step interpreter over a syntax tree.  Two things the
    machine does not deliver are answered `Off`: skipping a loop body in which another
    loop sits with no `if` between them, and a `break` below an `if` that was opened
    inside the loop.  ScriptDepartures.dfy shows what the machine does there instead. */
module ScriptMeaning {
  import opened Wrappers
  import opened ScriptMachine

  datatype Prog =
    | Nop
    | Simple(argv: Line)
    | Break
    | Then(first: Prog, second: Prog)
    | If(neg: bool, cond: Line, thn: Prog, els: Option<Prog>)
    | Loop(until: bool, cond: Line, body: Prog)

  // ---------- Concrete syntax ----------

  /** The script text of a program: one command per line. */
  function Print(p: Prog): seq<Line> {
    match p
    case Nop => []
    case Simple(argv) => [argv]
    case Break => [[KwBreak]]
    case Then(a, b) => Print(a) + Print(b)
    case If(neg, cond, thn, els) =>
      [[KwIf] + (if neg then [Bang] else []) + cond] + ([[KwThen]] + (Print(thn) + (PrintElse(els) + [[KwFi]])))
    case Loop(until, cond, body) =>
      [[if until then KwUntil else KwWhile] + cond] + ([[KwDo]] + (Print(body) + [[KwDone]]))
  }

  function PrintElse(els: Option<Prog>): seq<Line> {
    match els
    case None => []
    case Some(e) => [[KwElse]] + Print(e)
  }

  /** The strings that the shell reads as keywords, or as the `!` of a condition. */
  const RESERVED := {"while", "until", "do", "done", "if", "then", "else", "fi", "break", "!"}

  /** A word that can name a command. */
  predicate NamesCommand(w: Word) {
    w.Text? && w.text !in RESERVED
  }

  /** Command words are not reserved, and a condition has a non-empty command. */
  predicate WellFormed(p: Prog) {
    match p
    case Nop => true
    case Simple(argv) => argv != [] && NamesCommand(argv[0])
    case Break => true
    case Then(a, b) => WellFormed(a) && WellFormed(b)
    case If(_, cond, thn, els) => IsCondition(cond) && WellFormed(thn) && (els.Some? ==> WellFormed(els.value))
    case Loop(_, cond, body) => IsCondition(cond) && WellFormed(body)
  }

  predicate IsCondition(cond: Line) {
    cond != [] && NamesCommand(cond[0]) && cond[0].text != ""
  }

  function Max(a: nat, b: nat): nat {
    if a < b then b else a
  }

  function IfDepth(p: Prog): nat {
    match p
    case Nop | Simple(_) | Break => 0
    case Then(a, b) => Max(IfDepth(a), IfDepth(b))
    case If(_, _, thn, els) => 1 + Max(IfDepth(thn), if els.Some? then IfDepth(els.value) else 0)
    case Loop(_, _, body) => IfDepth(body)
  }

  function LoopDepth(p: Prog): nat {
    match p
    case Nop | Simple(_) | Break => 0
    case Then(a, b) => Max(LoopDepth(a), LoopDepth(b))
    case If(_, _, thn, els) => Max(LoopDepth(thn), if els.Some? then LoopDepth(els.value) else 0)
    case Loop(_, _, body) => 1 + LoopDepth(body)
  }

  // ---------- Meaning ----------

  /** What a script can observe: the commands executed so far and `$?`. */
  datatype World = World(trace: seq<Event>, fail: bool)

  /** Where a statement stands: outside every loop, directly in a loop body, or below
      an `if` that was opened in a loop body. */
  datatype Place = Outside | InBody | UnderIf

  datatype Outcome = Done(w: World, broke: bool) | OutOfFuel | Off

  function Fails(o: Oracle, argv: Line, w: World): bool {
    o(w.trace, argv, w.fail)
  }

  function Traced(o: Oracle, argv: Line, w: World): seq<Event> {
    w.trace + [Event(argv, w.fail, Fails(o, argv, w))]
  }

  /** Skipping a loop body is sound when no loop sits in it without an `if` around. */
  predicate SkipSafe(p: Prog) {
    match p
    case Then(a, b) => SkipSafe(a) && SkipSafe(b)
    case Loop(_, _, _) => false
    case _ => true
  }

  function BranchPlace(at: Place): Place {
    if at == InBody then UnderIf else at
  }

  /** The meaning of `p`.  `fuel` bounds how often loops turn. */
  function Exec(o: Oracle, at: Place, p: Prog, w: World, fuel: nat): Outcome
    decreases fuel, p
  {
    match p
    case Nop => Done(w, false)
    case Simple(argv) => Done(World(Traced(o, argv, w), Fails(o, argv, w)), false)
    case Break => if at == UnderIf then Off else Done(w.(fail := false), at == InBody)
    case Then(a, b) =>
      (match Exec(o, at, a, w, fuel)
       case Done(w1, false) => Exec(o, at, b, w1, fuel)
       case Done(w1, true) => if SkipSafe(b) then Done(w1, true) else Off
       case other => other)
    case If(neg, cond, thn, els) =>
      var w1 := World(Traced(o, cond, w), false);
      if Fails(o, cond, w) == neg then Exec(o, BranchPlace(at), thn, w1, fuel)
      else if els.Some? then Exec(o, BranchPlace(at), els.value, w1, fuel)
      else Done(w1, false)
    case Loop(until, cond, body) =>
      if fuel == 0 then OutOfFuel
      else
        var w1 := World(Traced(o, cond, w), false);
        if Fails(o, cond, w) != until then
          if SkipSafe(body) then Done(w1, false) else Off
        else
          match Exec(o, InBody, body, w1, fuel - 1)
          case Done(w2, false) => Exec(o, at, p, w2, fuel - 1)
          case Done(w2, true) => Done(w2, false)
          case other => other
  }

  /** Scripts that stay on the supported path whatever their commands do. */
  predicate Supported(at: Place, p: Prog)
    decreases p
  {
    match p
    case Nop | Simple(_) => true
    case Break => at != UnderIf
    case Then(a, b) =>
      Supported(at, a) && (if at == InBody && Breaks(a) then SkipSafe(b) else Supported(at, b))
    case If(_, _, thn, els) =>
      Supported(BranchPlace(at), thn) && (els.Some? ==> Supported(BranchPlace(at), els.value))
    case Loop(_, _, body) => SkipSafe(body) && Supported(InBody, body)
  }

  /** A `break` stands in `p` outside every `if` and every loop of `p`. */
  predicate Breaks(p: Prog) {
    match p
    case Break => true
    case Then(a, b) => Breaks(a) || Breaks(b)
    case _ => false
  }

  lemma {:induction false} SupportedStaysOn(o: Oracle, at: Place, p: Prog, w: World, fuel: nat)
    requires Supported(at, p)
    ensures Exec(o, at, p, w, fuel) != Off
    ensures var r := Exec(o, at, p, w, fuel);
      r.Done? ==> r.broke == (at == InBody && Breaks(p))
    decreases fuel, p
  {
    match p
    case Nop | Simple(_) | Break =>
    case Then(a, b) =>
      SupportedStaysOn(o, at, a, w, fuel);
      var r := Exec(o, at, a, w, fuel);
      if r.Done? && !r.broke {
        SupportedStaysOn(o, at, b, r.w, fuel);
      }
    case If(neg, cond, thn, els) =>
      var w1 := World(Traced(o, cond, w), false);
      SupportedStaysOn(o, BranchPlace(at), thn, w1, fuel);
      if els.Some? {
        SupportedStaysOn(o, BranchPlace(at), els.value, w1, fuel);
      }
    case Loop(until, cond, body) =>
      if fuel > 0 {
        var w1 := World(Traced(o, cond, w), false);
        SupportedStaysOn(o, InBody, body, w1, fuel - 1);
        var r := Exec(o, InBody, body, w1, fuel - 1);
        if r.Done? && !r.broke {
          SupportedStaysOn(o, at, p, r.w, fuel - 1);
        }
      }
  }

  // ---------- Machine states during a block ----------

  /** The lines from `i` on start with `block`. */
  predicate At(script: seq<Line>, i: nat, block: seq<Line>) {
    i + |block| <= |script| && script[i..i + |block|] == block
  }

  lemma AtSplit(script: seq<Line>, i: nat, a: seq<Line>, b: seq<Line>)
    requires At(script, i, a + b)
    ensures At(script, i, a) && At(script, i + |a|, b)
  {
    var whole := script[i..i + |a| + |b|];
    assert whole[..|a|] == a && whole[|a|..] == b;
    assert script[i..i + |a|] == whole[..|a|];
    assert script[i + |a|..i + |a| + |b|] == whole[|a|..];
  }

  /** Where the parts of a printed `if` are. */
  lemma AtIf(script: seq<Line>, i: nat, p: Prog)
    requires p.If? && At(script, i, Print(p))
    ensures At(script, i, [[KwIf] + (if p.neg then [Bang] else []) + p.cond])
    ensures At(script, i + 1, [[KwThen]])
    ensures At(script, i + 2, Print(p.thn))
    ensures At(script, i + 2 + |Print(p.thn)|, PrintElse(p.els))
    ensures At(script, i + 2 + |Print(p.thn)| + |PrintElse(p.els)|, [[KwFi]])
    ensures |Print(p)| == 3 + |Print(p.thn)| + |PrintElse(p.els)|
  {
    var line := [[KwIf] + (if p.neg then [Bang] else []) + p.cond];
    var tail := Print(p.thn) + (PrintElse(p.els) + [[KwFi]]);
    AtSplit(script, i, line, [[KwThen]] + tail);
    AtSplit(script, i + 1, [[KwThen]], tail);
    AtSplit(script, i + 2, Print(p.thn), PrintElse(p.els) + [[KwFi]]);
    AtSplit(script, i + 2 + |Print(p.thn)|, PrintElse(p.els), [[KwFi]]);
  }

  /** Where the parts of a printed loop are. */
  lemma AtLoop(script: seq<Line>, i: nat, p: Prog)
    requires p.Loop? && At(script, i, Print(p))
    ensures At(script, i, [[if p.until then KwUntil else KwWhile] + p.cond])
    ensures At(script, i + 1, [[KwDo]])
    ensures At(script, i + 2, Print(p.body))
    ensures At(script, i + 2 + |Print(p.body)|, [[KwDone]])
    ensures |Print(p)| == 3 + |Print(p.body)|
  {
    var line := [[if p.until then KwUntil else KwWhile] + p.cond];
    AtSplit(script, i, line, [[KwDo]] + (Print(p.body) + [[KwDone]]));
    AtSplit(script, i + 1, [[KwDo]], Print(p.body) + [[KwDone]]);
    AtSplit(script, i + 2, Print(p.body), [[KwDone]]);
  }

  /** Everything up to and including the top frames of `s` is the same in `t`, and no line
      has been rejected in between. */
  ghost predicate Restored(s: Np, t: Np)
    requires s.iendx < |s.ie| && s.lpndx < |s.lp|
  {
    && |t.ie| == |s.ie| && |t.lp| == |s.lp|
    && t.iendx == s.iendx && t.lpndx == s.lpndx && t.errors == s.errors
    && (forall k :: 0 <= k <= s.iendx ==> t.ie[k] == s.ie[k])
    && (forall k :: 0 <= k <= s.lpndx ==> t.lp[k] == s.lp[k])
  }

  function Disabled(s: Np): Np
    requires s.lpndx < |s.lp|
  {
    s.(lp := s.lp[s.lpndx := s.TopLoop().(enable := false)])
  }

  /** The machine stands between two statements. */
  ghost predicate Between(depth: nat, s: Np) {
    && Safe(depth, s)
    && (s.TopLoop().state == LoopNormal || s.TopLoop().state == LoopDo)
    && s.TopIf().state != ItefIf
    && (s.TopLoop().state == LoopDo ==> s.TopLoop().iendx <= s.iendx)
  }

  ghost predicate Fits(depth: nat, s: Np, p: Prog) {
    WellFormed(p) && s.iendx + IfDepth(p) < depth && s.lpndx + LoopDepth(p) < depth
  }

  function PlaceOf(s: Np): Place
    requires s.lpndx < |s.lp|
  {
    if s.TopLoop().state != LoopDo then Outside
    else if s.TopLoop().iendx == s.iendx then InBody
    else UnderIf
  }

  function WorldOf(s: Np): World {
    World(s.trace, s.fail)
  }

  // ---------- One line at a time ----------

  lemma RunsCondition(o: Oracle, depth: nat, s: Np, cond: Line)
    requires Safe(depth, s) && IsCondition(cond)
    ensures var failed := Fails(o, cond, WorldOf(s));
      Execute(o, depth, s, cond) == SaveResult(s.(trace := s.trace + [Event(cond, s.fail, failed)]), failed)
  {
  }

  /** A step is the parse of the next line. */
  lemma StepParses(o: Oracle, depth: nat, script: seq<Line>, s: Np, line: Line)
    requires Safe(depth, s) && At(script, s.next, [line])
    ensures var s0 := s.(foffs := s.next, next := s.next + 1, jump := false);
      Safe(depth, s0) && Step(o, depth, script, s) == ParseCommand(o, depth, s0, line)
  {
    hide ParseCommand;
    assert script[s.next] == script[s.next..s.next + 1][0] == line;
  }

  lemma LineSimple(o: Oracle, depth: nat, script: seq<Line>, s: Np, argv: Line)
    requires Between(depth, s) && At(script, s.next, [argv])
    requires argv != [] && argv[0].Text?
    ensures var t := Step(o, depth, script, s);
      && t.next == s.next + 1 && Restored(s, t)
      && WorldOf(t) == if CmdEnabled(s) then World(Traced(o, argv, WorldOf(s)), Fails(o, argv, WorldOf(s)))
                       else WorldOf(s)
  {
    assert script[s.next] == script[s.next..s.next + 1][0] == argv;
  }

  lemma LineBreak(o: Oracle, depth: nat, script: seq<Line>, s: Np)
    requires Between(depth, s) && At(script, s.next, [[KwBreak]])
    ensures var t := Step(o, depth, script, s);
      && t.next == s.next + 1
      && (!CmdEnabled(s) ==> Restored(s, t) && WorldOf(t) == WorldOf(s))
      && (CmdEnabled(s) && PlaceOf(s) == Outside ==> Restored(s, t) && WorldOf(t) == World(s.trace, false))
      && (CmdEnabled(s) && PlaceOf(s) == InBody ==>
            Restored(Disabled(s), t) && WorldOf(t) == World(s.trace, false))
  {
    assert script[s.next] == script[s.next..s.next + 1][0] == [KwBreak];
    var s0 := s.(foffs := s.next, next := s.next + 1, jump := false);
    assert NshLoop(depth, s0, [KwBreak]) == NshItef(depth, s0, [KwBreak]) == Parsed(s0, [KwBreak], true);
    hide NshLoop, NshItef;
  }

  lemma IfAccepted(depth: nat, s: Np, neg: bool, cond: Line)
    requires Between(depth, s) && s.iendx + 1 < depth && IsCondition(cond)
    ensures var line := [KwIf] + (if neg then [Bang] else []) + cond;
      && NshLoop(depth, s, line) == Parsed(s, line, true)
      && NshItef(depth, s, line) == Parsed(PushIf(s, neg), cond, true)
  {
    var line := [KwIf] + (if neg then [Bang] else []) + cond;
    assert line[1..] == (if neg then [Bang] + cond else cond);
    assert neg ==> line[2..] == cond;
  }

  /** The condition `cond` is run in state `s`, or not. */
  function Conditioned(o: Oracle, s: Np, cond: Line): Np
    requires s.iendx < |s.ie| && s.lpndx < |s.lp|
  {
    if CmdEnabled(s) then
      var failed := Fails(o, cond, WorldOf(s));
      SaveResult(s.(trace := s.trace + [Event(cond, s.fail, failed)]), failed)
    else s
  }

  lemma IfStep(o: Oracle, depth: nat, script: seq<Line>, s: Np, neg: bool, cond: Line)
    requires Between(depth, s) && s.iendx + 1 < depth && IsCondition(cond)
    requires At(script, s.next, [[KwIf] + (if neg then [Bang] else []) + cond])
    ensures Step(o, depth, script, s) ==
      Conditioned(o, PushIf(s.(foffs := s.next, next := s.next + 1, jump := false), neg), cond)
  {
    hide NshLoop, NshItef, Step;
    var line := [KwIf] + (if neg then [Bang] else []) + cond;
    StepParses(o, depth, script, s, line);
    var s0 := s.(foffs := s.next, next := s.next + 1, jump := false);
    IfAccepted(depth, s0, neg, cond);
    RunsCondition(o, depth, PushIf(s0, neg), cond);
    hide Execute, SaveResult;
  }

  /** `if`: a frame is pushed; its condition runs exactly when commands are enabled. */
  lemma LineIf(o: Oracle, depth: nat, script: seq<Line>, s: Np, neg: bool, cond: Line)
    requires Between(depth, s) && s.iendx + 1 < depth && IsCondition(cond)
    requires At(script, s.next, [[KwIf] + (if neg then [Bang] else []) + cond])
    ensures var t := Step(o, depth, script, s);
      && t.next == s.next + 1 && t.iendx == s.iendx + 1
      && Restored(s, t.(iendx := s.iendx))
      && t.TopIf().state == ItefIf && t.TopIf().disabled == !CmdEnabled(s)
      && (CmdEnabled(s) ==> t.TopIf().ifcond == (neg != Fails(o, cond, WorldOf(s))))
      && WorldOf(t) == if CmdEnabled(s) then World(Traced(o, cond, WorldOf(s)), false) else WorldOf(s)
  {
    IfStep(o, depth, script, s, neg, cond);
    hide Step, At, IsCondition;
    var s1 := PushIf(s.(foffs := s.next, next := s.next + 1, jump := false), neg);
    assert CmdEnabled(s1) == CmdEnabled(s);
  }

  lemma LineThen(o: Oracle, depth: nat, script: seq<Line>, s: Np)
    requires Safe(depth, s) && s.TopIf().state == ItefIf && !AwaitsDo(s)
    requires At(script, s.next, [[KwThen]])
    ensures var t := Step(o, depth, script, s);
      && t.next == s.next + 1 && WorldOf(t) == WorldOf(s)
      && Restored(s.(ie := s.ie[s.iendx := s.TopIf().(state := ItefThen)]), t)
  {
    assert script[s.next] == script[s.next..s.next + 1][0] == [KwThen];
  }

  lemma LineElse(o: Oracle, depth: nat, script: seq<Line>, s: Np)
    requires Between(depth, s) && s.TopIf().state == ItefThen
    requires At(script, s.next, [[KwElse]])
    ensures var t := Step(o, depth, script, s);
      && t.next == s.next + 1 && WorldOf(t) == WorldOf(s)
      && Restored(s.(ie := s.ie[s.iendx := s.TopIf().(state := ItefElse)]), t)
  {
    assert script[s.next] == script[s.next..s.next + 1][0] == [KwElse];
  }

  lemma LineFi(o: Oracle, depth: nat, script: seq<Line>, s: Np)
    requires Between(depth, s) && (s.TopIf().state == ItefThen || s.TopIf().state == ItefElse)
    requires At(script, s.next, [[KwFi]])
    ensures s.iendx > 0
    ensures var t := Step(o, depth, script, s);
      && t.next == s.next + 1 && WorldOf(t) == WorldOf(s)
      && Restored(s.(iendx := s.iendx - 1), t)
  {
    assert script[s.next] == script[s.next..s.next + 1][0] == [KwFi];
  }

  lemma LoopAccepted(depth: nat, s: Np, until: bool, cond: Line)
    requires Between(depth, s) && s.lpndx + 1 < depth && IsCondition(cond) && s.foffs >= 0
    ensures NshLoop(depth, s, [if until then KwUntil else KwWhile] + cond) == Parsed(PushLoop(s, until), cond, true)
    ensures var s1 := PushLoop(s, until);
      Safe(depth, s1) && NshItef(depth, s1, cond) == Parsed(s1, cond, true)
  {
    var line := [if until then KwUntil else KwWhile] + cond;
    assert line[1..] == cond;
  }

  lemma LoopStep(o: Oracle, depth: nat, script: seq<Line>, s: Np, until: bool, cond: Line)
    requires Between(depth, s) && s.lpndx + 1 < depth && IsCondition(cond)
    requires At(script, s.next, [[if until then KwUntil else KwWhile] + cond])
    ensures Step(o, depth, script, s) ==
      Conditioned(o, PushLoop(s.(foffs := s.next, next := s.next + 1, jump := false), until), cond)
  {
    hide NshLoop, NshItef, Step;
    var line := [if until then KwUntil else KwWhile] + cond;
    StepParses(o, depth, script, s, line);
    var s0 := s.(foffs := s.next, next := s.next + 1, jump := false);
    LoopAccepted(depth, s0, until, cond);
    RunsCondition(o, depth, PushLoop(s0, until), cond);
    hide Execute, SaveResult;
  }

  /** `while` and `until`: a frame is pushed.  Whether the condition runs depends on
      the `if` frame alone, because the new frame hides the one of the outer loop. */
  lemma LineLoop(o: Oracle, depth: nat, script: seq<Line>, s: Np, until: bool, cond: Line)
    requires Between(depth, s) && s.lpndx + 1 < depth && IsCondition(cond)
    requires At(script, s.next, [[if until then KwUntil else KwWhile] + cond])
    ensures var t := Step(o, depth, script, s);
      && t.next == s.next + 1 && t.lpndx == s.lpndx + 1
      && Restored(s, t.(lpndx := s.lpndx))
      && t.TopLoop().state == (if until then LoopUntil else LoopWhile)
      && t.TopLoop().iendx == s.iendx && t.TopLoop().topoffs == s.next
      && t.TopLoop().enable == (if ItefEnabled(s) then Fails(o, cond, WorldOf(s)) == until else false)
      && WorldOf(t) == if ItefEnabled(s) then World(Traced(o, cond, WorldOf(s)), false) else WorldOf(s)
  {
    LoopStep(o, depth, script, s, until, cond);
    hide Step, At, IsCondition;
    var s1 := PushLoop(s.(foffs := s.next, next := s.next + 1, jump := false), until);
    assert CmdEnabled(s1) == ItefEnabled(s);
  }

  lemma LineDo(o: Oracle, depth: nat, script: seq<Line>, s: Np)
    requires Safe(depth, s) && AwaitsDo(s) && s.TopIf().state != ItefIf
    requires At(script, s.next, [[KwDo]])
    ensures var t := Step(o, depth, script, s);
      && t.next == s.next + 1 && WorldOf(t) == WorldOf(s)
      && Restored(s.(lp := s.lp[s.lpndx := s.TopLoop().(state := LoopDo)]), t)
  {
    assert script[s.next] == script[s.next..s.next + 1][0] == [KwDo];
  }

  lemma LineDone(o: Oracle, depth: nat, script: seq<Line>, s: Np)
    requires Between(depth, s) && s.TopLoop().state == LoopDo
    requires At(script, s.next, [[KwDone]])
    ensures s.lpndx > 0
    ensures var t := Step(o, depth, script, s);
      && t.next == (if s.TopLoop().enable then s.TopLoop().topoffs else s.next + 1)
      && WorldOf(t) == WorldOf(s)
      && Restored(s.(lpndx := s.lpndx - 1), t)
  {
    assert script[s.next] == script[s.next..s.next + 1][0] == [KwDone];
  }
}
