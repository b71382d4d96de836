/** struct nsh_parser_s as the C code updates it: two arrays of frames, two indices and
    a handful of scalars.  Every method is proved to move the abstract state exactly as
    the function of ScriptMachine with the same name says. */
module ParserObject {
  import opened ScriptMachine

  class Parser {
    const depth: nat // CONFIG_NSH_NESTDEPTH

    var iestate: array<IfFrame>
    var iendx: nat
    var lpstate: array<LoopFrame>
    var lpndx: nat
    var fail: bool
    var jump: bool
    var foffs: int
    var next: nat
    var trace: seq<Event> // commands executed, oldest first
    var errors: nat // lines rejected, each with a message

    ghost function Abs(): Np
      reads this, iestate, lpstate
    {
      Np(iestate[..], iendx, lpstate[..], lpndx, fail, jump, foffs, next, trace, errors)
    }

    ghost predicate Valid()
      reads this, iestate, lpstate
    {
      Safe(depth, Abs())
    }

    constructor (depth: nat, trace: seq<Event>, fail: bool)
      requires depth > 0
      ensures Valid() && this.depth == depth && Abs() == Start(depth, trace, fail)
      ensures fresh(iestate) && fresh(lpstate)
    {
      this.depth := depth;
      iestate := new IfFrame[depth](_ => NORMAL_IF);
      lpstate := new LoopFrame[depth](_ => LoopFrame(LoopNormal, false, 0, 0));
      iendx, lpndx, jump, foffs, next, errors := 0, 0, false, 0, 0, 0;
      this.trace, this.fail := trace, fail;
      new;
      assert iestate[..] == Start(depth, trace, fail).ie;
      assert lpstate[..] == Start(depth, trace, fail).lp;
    }

    predicate CmdEnabled()
      requires Valid()
      reads this, iestate, lpstate
      ensures CmdEnabled() == ScriptMachine.CmdEnabled(Abs())
    {
      && (lpstate[lpndx].state == LoopDo ==> lpstate[lpndx].enable)
      && !iestate[iendx].disabled
      && (iestate[iendx].state == ItefThen ==> !iestate[iendx].ifcond)
      && (iestate[iendx].state == ItefElse ==> iestate[iendx].ifcond)
    }

    method SaveResult(failed: bool) returns (ok: bool)
      requires Valid()
      modifies this`fail, iestate, lpstate
      ensures Valid() && Abs() == ScriptMachine.SaveResult(old(Abs()), failed)
      ensures ok == !fail
    {
      SaveResultSafe(depth, Abs(), failed);
      if lpstate[lpndx].state == LoopWhile {
        fail := false;
        lpstate[lpndx] := lpstate[lpndx].(enable := !failed);
        ok := true;
      } else if lpstate[lpndx].state == LoopUntil {
        fail := false;
        lpstate[lpndx] := lpstate[lpndx].(enable := failed);
        ok := true;
      } else if iestate[iendx].state == ItefIf {
        fail := false;
        iestate[iendx] := iestate[iendx].(ifcond := iestate[iendx].inverted != failed);
        ok := true;
      } else {
        fail := failed;
        ok := !failed;
      }
    }

    /** The `errout` label of nsh_loop. */
    method LoopErrout()
      requires Valid()
      modifies this`errors, this`jump, this`lpndx, lpstate
      ensures Abs() == LoopError(old(Abs()))
    {
      errors := errors + 1;
      jump := false;
      lpndx := 0;
      lpstate[0] := lpstate[0].(state := LoopNormal, enable := true, topoffs := 0);
    }

    /** `while` and `until`. */
    method LoopBegin(words: Line) returns (ok: bool)
      requires Valid() && words != [] && (words[0] == KwWhile || words[0] == KwUntil)
      modifies this`errors, this`jump, this`lpndx, lpstate
      ensures Parsed(Abs(), words[1..], ok) == NshLoop(depth, old(Abs()), words)
    {
      var rest := words[1..];
      if rest == [] || rest[0] == Text("") {
        LoopErrout();
        return false;
      }
      if iestate[iendx].state == ItefIf || lpstate[lpndx].state == LoopWhile
         || lpstate[lpndx].state == LoopUntil || foffs < 0 {
        LoopErrout();
        return false;
      }
      if lpndx >= depth - 1 {
        LoopErrout();
        return false;
      }
      var enable := CmdEnabled();
      jump := false;
      lpndx := lpndx + 1;
      lpstate[lpndx] := LoopFrame(if words[0] == KwWhile then LoopWhile else LoopUntil, enable, iendx, foffs);
      assert Abs() == PushLoop(old(Abs()), words[0] == KwUntil);
      return true;
    }

    /** `done`. */
    method LoopEnd(words: Line) returns (ok: bool)
      requires Valid() && words != [] && words[0] == KwDone
      modifies this`errors, this`jump, this`lpndx, this`next, lpstate
      ensures Parsed(Abs(), words[1..], ok) == NshLoop(depth, old(Abs()), words)
    {
      if words[1..] != [] {
        LoopErrout();
        return false;
      }
      if lpstate[lpndx].state != LoopDo {
        LoopErrout();
        return false;
      }
      if lpndx < 1 {
        assert false;
      }
      if lpstate[lpndx].enable {
        next := lpstate[lpndx].topoffs;
        jump := true;
      } else {
        lpstate[lpndx] := lpstate[lpndx].(enable := true);
      }
      lpstate[lpndx] := lpstate[lpndx].(state := LoopNormal);
      lpndx := lpndx - 1;
      assert Abs() == PopLoop(old(Abs()));
      return true;
    }

    method Loop(words: Line) returns (rest: Line, ok: bool)
      requires Valid()
      modifies this`errors, this`jump, this`lpndx, this`next, lpstate
      ensures Parsed(Abs(), rest, ok) == NshLoop(depth, old(Abs()), words)
      ensures Valid()
    {
      if words == [] {
        return words, true;
      }
      if words[0] == KwWhile || words[0] == KwUntil {
        ok := LoopBegin(words);
        return words[1..], ok;
      }
      if words[0] == KwDone {
        ok := LoopEnd(words);
        return words[1..], ok;
      }
      if words[0] == KwDo {
        if lpstate[lpndx].state != LoopWhile && lpstate[lpndx].state != LoopUntil {
          LoopErrout();
          return words[1..], false;
        }
        lpstate[lpndx] := lpstate[lpndx].(state := LoopDo);
        return words[1..], true;
      }
      if lpstate[lpndx].state == LoopWhile || lpstate[lpndx].state == LoopUntil {
        LoopErrout();
        return words, false;
      }
      return words, true;
    }

    /** The `errout` label of nsh_itef. */
    method ItefErrout()
      requires Valid()
      modifies this`errors, this`iendx, iestate
      ensures Abs() == ItefError(old(Abs()))
    {
      errors := errors + 1;
      iendx := 0;
      iestate[0] := NORMAL_IF;
    }

    /** `if`. */
    method ItefBegin(words: Line) returns (rest: Line, ok: bool)
      requires Valid() && words != [] && words[0] == KwIf
      modifies this`errors, this`iendx, iestate
      ensures Parsed(Abs(), rest, ok) == NshItef(depth, old(Abs()), words)
    {
      var inverted := false;
      rest := words[1..];
      if rest != [] && rest[0] == Bang {
        inverted := true;
        rest := rest[1..];
        assert rest == words[2..];
      }
      if rest == [] || rest[0] == Text("") {
        ItefErrout();
        return rest, false;
      }
      if iestate[iendx].state == ItefIf {
        ItefErrout();
        return rest, false;
      }
      if iendx >= depth - 1 {
        ItefErrout();
        return rest, false;
      }
      var disabled := !CmdEnabled();
      iendx := iendx + 1;
      iestate[iendx] := IfFrame(ItefIf, disabled, false, inverted);
      assert Abs() == PushIf(old(Abs()), inverted);
      return rest, true;
    }

    /** `fi`. */
    method ItefEnd(words: Line) returns (ok: bool)
      requires Valid() && words != [] && words[0] == KwFi
      modifies this`errors, this`iendx, iestate
      ensures Parsed(Abs(), words[1..], ok) == NshItef(depth, old(Abs()), words)
    {
      if words[1..] != [] {
        ItefErrout();
        return false;
      }
      if iestate[iendx].state != ItefThen && iestate[iendx].state != ItefElse {
        ItefErrout();
        return false;
      }
      if iendx < 1 {
        assert false;
      }
      iendx := iendx - 1;
      return true;
    }

    method Itef(words: Line) returns (rest: Line, ok: bool)
      requires Valid()
      modifies this`errors, this`iendx, iestate
      ensures Parsed(Abs(), rest, ok) == NshItef(depth, old(Abs()), words)
      ensures Valid()
    {
      if words == [] {
        return words, true;
      }
      if words[0] == KwIf {
        rest, ok := ItefBegin(words);
        return;
      }
      if words[0] == KwFi {
        ok := ItefEnd(words);
        return words[1..], ok;
      }
      if words[0] == KwThen {
        if iestate[iendx].state != ItefIf {
          ItefErrout();
          return words[1..], false;
        }
        iestate[iendx] := iestate[iendx].(state := ItefThen);
        return words[1..], true;
      }
      if words[0] == KwElse {
        if iestate[iendx].state != ItefThen {
          ItefErrout();
          return words[1..], false;
        }
        iestate[iendx] := iestate[iendx].(state := ItefElse);
        return words[1..], true;
      }
      if iestate[iendx].state == ItefIf {
        ItefErrout();
        return words, false;
      }
      return words, true;
    }

    method CmdBreak()
      requires Valid()
      modifies this`iendx, lpstate
      ensures Valid() && Abs() == ScriptMachine.CmdBreak(old(Abs()))
    {
      if lpstate[lpndx].state == LoopDo {
        iendx := lpstate[lpndx].iendx;
        lpstate[lpndx] := lpstate[lpndx].(enable := false);
      }
    }

    method Execute(o: Oracle, argv: Line) returns (ok: bool)
      requires Valid() && argv != []
      modifies this`fail, this`iendx, this`trace, iestate, lpstate
      ensures Valid() && Abs() == ScriptMachine.Execute(o, depth, old(Abs()), argv)
      ensures ok == !fail
    {
      if argv[0] == KwBreak {
        CmdBreak();
        ok := SaveResult(false);
      } else {
        var failed := o(trace, argv, fail);
        trace := trace + [Event(argv, fail, failed)];
        ok := SaveResult(failed);
      }
    }

    method ParseCommand(o: Oracle, line: Line) returns (ok: bool)
      requires Valid()
      modifies this`fail, this`errors, this`jump, this`next, this`lpndx, this`iendx, this`trace, iestate, lpstate
      ensures Valid() && Abs() == ScriptMachine.ParseCommand(o, depth, old(Abs()), line)
      ensures !ok ==> fail
    {
      var words, accepted := Loop(line);
      if !accepted {
        ok := SaveResult(true);
        return;
      }
      words, accepted := Itef(words);
      if !accepted {
        ok := SaveResult(true);
        return;
      }
      if words == [] || !CmdEnabled() {
        return true;
      }
      ok := Execute(o, words);
    }

    /** The loop of nsh_script, stopped at the end of the file or after `budget` lines:
        a script may run for ever. */
    method Script(o: Oracle, script: seq<Line>, budget: nat)
      requires Valid()
      modifies this`fail, this`errors, this`jump, this`foffs, this`next, this`lpndx, this`iendx, this`trace
      modifies iestate, lpstate
      ensures Valid() && Abs() == Steps(o, depth, script, budget, old(Abs()))
    {
      hide Step, Safe;
      var k := 0;
      while k < budget
        invariant 0 <= k <= budget && Valid()
        invariant Steps(o, depth, script, budget - k, Abs()) == Steps(o, depth, script, budget, old(Abs()))
      {
        Line(o, script);
        k := k + 1;
      }
    }

    /** Read a line, if there is one, and parse it. */
    method Line(o: Oracle, script: seq<Line>)
      requires Valid()
      modifies this`fail, this`errors, this`jump, this`foffs, this`next, this`lpndx, this`iendx, this`trace
      modifies iestate, lpstate
      ensures Valid() && Abs() == Step(o, depth, script, old(Abs()))
    {
      hide ScriptMachine.ParseCommand;
      if next < |script| {
        foffs := next;
        var line := script[next];
        next := next + 1;
        jump := false;
        assert Abs() == old(Abs()).(foffs := old(next), next := old(next) + 1, jump := false);
        var _ := ParseCommand(o, line);
      }
    }
  }
}
