/** The control-flow machine behind NSH scripts (nsh_parse.c, nsh_script.c).

    There is no syntax tree in the shell.  Each script line is looked at once by
    nsh_loop, once by nsh_itef, and is then run or skipped; two bounded stacks of
    frames remember where we are, and `done` moves the file position back.

    This module gives the machine as functions on a value, `Np`.  The class in
    ParserObject.dfy updates fields and arrays in place and is proved against them. */
module ScriptMachine {

  /** A word of a command line.  nsh_parse.c compares words with the reserved
      strings; here a reserved string has its own constructor and any other string
      is `Text`. */
  datatype Word =
    | KwWhile | KwUntil | KwDo | KwDone
    | KwIf | KwThen | KwElse | KwFi
    | KwBreak | Bang
    | Text(text: string)

  type Line = seq<Word>

  datatype ItefState = ItefNormal | ItefIf | ItefThen | ItefElse

  datatype LoopState = LoopNormal | LoopWhile | LoopUntil | LoopDo

  datatype IfFrame = IfFrame(state: ItefState, disabled: bool, ifcond: bool, inverted: bool)

  datatype LoopFrame = LoopFrame(state: LoopState, enable: bool, iendx: nat, topoffs: nat)

  /** One executed command: its words, the value `$?` had when it started, and
      whether it failed. */
  datatype Event = Event(argv: Line, lastFailed: bool, failed: bool)

  /** What commands do.  A command may depend on everything executed before it, on
      its own words and on `$?`; the answer is whether it fails. */
  type Oracle = (seq<Event>, Line, bool) -> bool

  /** struct nsh_parser_s: the two stacks with their indices, the status of the last
      command, the jump flag, the offset of the line being parsed (negative when the
      input cannot be repositioned), the file position, what was executed, and how many
      lines were rejected, each with a message from nsh_error. */
  datatype Np = Np(
    ie: seq<IfFrame>, iendx: nat,
    lp: seq<LoopFrame>, lpndx: nat,
    fail: bool, jump: bool, foffs: int, next: nat,
    trace: seq<Event>, errors: nat)
  {
    function TopIf(): IfFrame
      requires iendx < |ie|
    {
      ie[iendx]
    }

    function TopLoop(): LoopFrame
      requires lpndx < |lp|
    {
      lp[lpndx]
    }
  }

  const NORMAL_IF := IfFrame(ItefNormal, false, false, false)

  /** What every reachable parser state satisfies, however malformed the script:
      both indices stay inside the stacks and frame 0 of each stack is NORMAL. */
  ghost predicate Safe(depth: nat, s: Np) {
    && |s.ie| == |s.lp| == depth
    && s.iendx < depth && s.lpndx < depth
    && s.ie[0].state == ItefNormal
    && s.lp[0].state == LoopNormal
    && forall k :: 0 <= k < depth ==> s.lp[k].iendx < depth
  }

  predicate LoopEnabled(s: Np)
    requires s.lpndx < |s.lp|
  {
    s.TopLoop().state == LoopDo ==> s.TopLoop().enable
  }

  predicate ItefEnabled(s: Np)
    requires s.iendx < |s.ie|
  {
    && !s.TopIf().disabled
    && (s.TopIf().state == ItefThen ==> !s.TopIf().ifcond)
    && (s.TopIf().state == ItefElse ==> s.TopIf().ifcond)
  }

  predicate CmdEnabled(s: Np)
    requires s.iendx < |s.ie| && s.lpndx < |s.lp|
  {
    LoopEnabled(s) && ItefEnabled(s)
  }

  /** nsh_saveresult: the status of a command goes to the condition that is waiting
      for it, or else to `$?`. */
  function SaveResult(s: Np, failed: bool): Np
    requires s.iendx < |s.ie| && s.lpndx < |s.lp|
  {
    match s.TopLoop().state
    case LoopWhile => s.(fail := false, lp := s.lp[s.lpndx := s.TopLoop().(enable := !failed)])
    case LoopUntil => s.(fail := false, lp := s.lp[s.lpndx := s.TopLoop().(enable := failed)])
    case _ =>
      if s.TopIf().state == ItefIf then
        s.(fail := false, ie := s.ie[s.iendx := s.TopIf().(ifcond := s.TopIf().inverted != failed)])
      else
        s.(fail := failed)
  }

  /** A result of nsh_loop or nsh_itef: the new state, the words that remain (the
      first is the command, none means NULL), and whether the line was accepted. */
  datatype Parsed = Parsed(s: Np, words: Line, ok: bool)

  function LoopError(s: Np): Np
    requires |s.lp| > 0
  {
    s.(errors := s.errors + 1, jump := false, lpndx := 0,
       lp := s.lp[0 := s.lp[0].(state := LoopNormal, enable := true, topoffs := 0)])
  }

  function ItefError(s: Np): Np
    requires |s.ie| > 0
  {
    s.(errors := s.errors + 1, iendx := 0, ie := s.ie[0 := NORMAL_IF])
  }

  predicate NoCommand(words: Line) {
    words == [] || words[0] == Text("")
  }

  predicate AwaitsDo(s: Np)
    requires s.lpndx < |s.lp|
  {
    s.TopLoop().state == LoopWhile || s.TopLoop().state == LoopUntil
  }

  function PushLoop(s: Np, until: bool): Np
    requires s.iendx < |s.ie| && s.lpndx + 1 < |s.lp| && s.foffs >= 0
  {
    var frame := LoopFrame(if until then LoopUntil else LoopWhile, CmdEnabled(s), s.iendx, s.foffs);
    s.(jump := false, lpndx := s.lpndx + 1, lp := s.lp[s.lpndx + 1 := frame])
  }

  /** `done`: back to the top of an enabled loop, on past a disabled one; the frame is
      popped either way. */
  function PopLoop(s: Np): Np
    requires 0 < s.lpndx < |s.lp|
  {
    var top := s.TopLoop();
    s.(next := if top.enable then top.topoffs else s.next,
       jump := if top.enable then true else s.jump,
       lpndx := s.lpndx - 1,
       lp := s.lp[s.lpndx := top.(state := LoopNormal, enable := true)])
  }

  /** nsh_loop: while, until, do and done. */
  function NshLoop(depth: nat, s: Np, words: Line): (r: Parsed)
    requires Safe(depth, s)
    ensures Safe(depth, r.s)
    ensures r.s.ie == s.ie && r.s.iendx == s.iendx && r.s.trace == s.trace && r.s.fail == s.fail
    ensures r.s.errors == if r.ok then s.errors else s.errors + 1
    ensures !r.ok ==> r.s.lpndx == 0 && r.s.lp[0].enable && r.s.lp[0].topoffs == 0
  {
    if words == [] then Parsed(s, words, true)
    else
      match words[0]
      case KwWhile | KwUntil =>
        if NoCommand(words[1..]) || s.TopIf().state == ItefIf || AwaitsDo(s) || s.foffs < 0
           || s.lpndx + 1 >= depth then
          Parsed(LoopError(s), words[1..], false)
        else
          Parsed(PushLoop(s, words[0] == KwUntil), words[1..], true)
      case KwDo =>
        if AwaitsDo(s) then
          Parsed(s.(lp := s.lp[s.lpndx := s.TopLoop().(state := LoopDo)]), words[1..], true)
        else
          Parsed(LoopError(s), words[1..], false)
      case KwDone =>
        if words[1..] == [] && s.TopLoop().state == LoopDo then
          Parsed(PopLoop(s), [], true)
        else
          Parsed(LoopError(s), words[1..], false)
      case _ =>
        if AwaitsDo(s) then Parsed(LoopError(s), words, false) else Parsed(s, words, true)
  }

  function PushIf(s: Np, inverted: bool): Np
    requires s.iendx + 1 < |s.ie| && s.lpndx < |s.lp|
  {
    s.(iendx := s.iendx + 1,
       ie := s.ie[s.iendx + 1 := IfFrame(ItefIf, !CmdEnabled(s), false, inverted)])
  }

  /** nsh_itef: if, then, else and fi. */
  function NshItef(depth: nat, s: Np, words: Line): (r: Parsed)
    requires Safe(depth, s)
    ensures Safe(depth, r.s)
    ensures r.s.lp == s.lp && r.s.lpndx == s.lpndx && r.s.trace == s.trace && r.s.fail == s.fail
    ensures r.s.errors == if r.ok then s.errors else s.errors + 1
    ensures !r.ok ==> r.s.iendx == 0 && r.s.ie[0] == NORMAL_IF
  {
    if words == [] then Parsed(s, words, true)
    else
      match words[0]
      case KwIf =>
        var inverted := words[1..] != [] && words[1] == Bang;
        var rest := if inverted then words[2..] else words[1..];
        if NoCommand(rest) || s.TopIf().state == ItefIf || s.iendx + 1 >= depth then
          Parsed(ItefError(s), rest, false)
        else
          Parsed(PushIf(s, inverted), rest, true)
      case KwThen =>
        if s.TopIf().state == ItefIf then
          Parsed(s.(ie := s.ie[s.iendx := s.TopIf().(state := ItefThen)]), words[1..], true)
        else
          Parsed(ItefError(s), words[1..], false)
      case KwElse =>
        if s.TopIf().state == ItefThen then
          Parsed(s.(ie := s.ie[s.iendx := s.TopIf().(state := ItefElse)]), words[1..], true)
        else
          Parsed(ItefError(s), words[1..], false)
      case KwFi =>
        if words[1..] == [] && (s.TopIf().state == ItefThen || s.TopIf().state == ItefElse) then
          Parsed(s.(iendx := s.iendx - 1), [], true)
        else
          Parsed(ItefError(s), words[1..], false)
      case _ =>
        if s.TopIf().state == ItefIf then Parsed(ItefError(s), words, false) else Parsed(s, words, true)
  }

  /** cmd_break: only inside a loop body, where it restores the if-index of the loop
      and disables the rest of the body. */
  function CmdBreak(s: Np): Np
    requires s.lpndx < |s.lp|
  {
    if s.TopLoop().state == LoopDo then
      s.(iendx := s.TopLoop().iendx, lp := s.lp[s.lpndx := s.TopLoop().(enable := false)])
    else s
  }

  lemma SaveResultSafe(depth: nat, s: Np, failed: bool)
    requires Safe(depth, s)
    ensures Safe(depth, SaveResult(s, failed))
  {
  }

  lemma CmdBreakSafe(depth: nat, s: Np)
    requires Safe(depth, s)
    ensures Safe(depth, CmdBreak(s))
  {
  }

  /** nsh_execute, reduced to the status that reaches nsh_saveresult. */
  function Execute(o: Oracle, depth: nat, s: Np, argv: Line): (r: Np)
    requires Safe(depth, s) && argv != []
    ensures Safe(depth, r)
  {
    if argv[0] == KwBreak then
      CmdBreakSafe(depth, s);
      SaveResultSafe(depth, CmdBreak(s), false);
      SaveResult(CmdBreak(s), false)
    else
      var failed := o(s.trace, argv, s.fail);
      SaveResultSafe(depth, s.(trace := s.trace + [Event(argv, s.fail, failed)]), failed);
      SaveResult(s.(trace := s.trace + [Event(argv, s.fail, failed)]), failed)
  }

  /** nsh_parse_command on one line that holds one command. */
  function ParseCommand(o: Oracle, depth: nat, s: Np, line: Line): (r: Np)
    requires Safe(depth, s)
    ensures Safe(depth, r)
  {
    var l := NshLoop(depth, s, line);
    if !l.ok then SaveResultSafe(depth, l.s, true); SaveResult(l.s, true)
    else
      var i := NshItef(depth, l.s, l.words);
      if !i.ok then SaveResultSafe(depth, i.s, true); SaveResult(i.s, true)
      else if i.words == [] || !CmdEnabled(i.s) then i.s
      else Execute(o, depth, i.s, i.words)
  }

  /** One turn of the loop of nsh_script: remember the offset, read a line, parse it.
      Past the last line nothing happens any more. */
  function Step(o: Oracle, depth: nat, script: seq<Line>, s: Np): (r: Np)
    requires Safe(depth, s)
    ensures Safe(depth, r)
  {
    if s.next < |script| then
      ParseCommand(o, depth, s.(foffs := s.next, next := s.next + 1, jump := false), script[s.next])
    else s
  }

  function Steps(o: Oracle, depth: nat, script: seq<Line>, k: nat, s: Np): (r: Np)
    requires Safe(depth, s)
    ensures Safe(depth, r)
    decreases k
  {
    if k == 0 then s else Steps(o, depth, script, k - 1, Step(o, depth, script, s))
  }

  /** The state in which the shell starts a script, with any past. */
  function Start(depth: nat, trace: seq<Event>, fail: bool): (s: Np)
    requires depth > 0
    ensures Safe(depth, s)
  {
    Np(seq(depth, _ => NORMAL_IF), 0, seq(depth, _ => LoopFrame(LoopNormal, false, 0, 0)), 0,
       fail, false, 0, 0, trace, 0)
  }
}
