/** The parser state as the shell keeps it: two arrays and their indices, updated in place. */
module ShellParser {
  import opened ControlState

  class NshParser {
    const iestate: array<Itef>
    const lpstate: array<Loop>
    var iendx: nat
    var lpndx: nat
    var jump: bool
    var pos: nat
    var fail: bool

    ghost function View(): Parser
      reads this, iestate, lpstate
    {
      Parser(iestate[..], iendx, lpstate[..], lpndx, jump, pos, fail)
    }

    ghost predicate Valid()
      reads this, iestate, lpstate
    {
      View().Safe(iestate.Length)
    }

    constructor (depth: nat)
      requires depth >= 1
      ensures Valid() && View() == Initial(depth)
      ensures fresh(iestate) && fresh(lpstate)
    {
      iestate := new Itef[depth](i => NORMAL_ITEF);
      lpstate := new Loop[depth](i => NORMAL_LOOP);
      iendx, lpndx, jump, pos, fail := 0, 0, false, 0, false;
    }

    // Writes to a record of the `if` stack and makes it the top one.
    method PutIf(i: nat, r: Itef)
      requires i < iestate.Length
      modifies this`iendx, iestate
      ensures View() == old(View()).SetIf(i, r)
    {
      iestate[i] := r;
      iendx := i;
    }

    method PutLoop(i: nat, r: Loop)
      requires i < lpstate.Length
      modifies this`lpndx, lpstate
      ensures View() == old(View()).SetLoop(i, r)
    {
      lpstate[i] := r;
      lpndx := i;
    }

    function CmdEnabled(): (b: bool)
      requires Valid()
      reads this, iestate, lpstate
      ensures b == View().Enabled()
    {
      var l := lpstate[lpndx];
      var r := iestate[iendx];
      (l.state != LoopDo || l.enable)
      && !r.disabled
      && (match r.state
          case ItefThen => !r.ifcond
          case ItefElse => r.ifcond
          case _ => true)
    }

    method SaveResult(failed: bool) returns (ok: bool)
      requires Valid()
      modifies this, iestate, lpstate
      ensures Valid() && Saved(View(), ok) == ControlState.SaveResult(old(View()), failed)
    {
      SaveResultSafe(View(), failed, iestate.Length);
      if lpstate[lpndx].state == LoopWhile {
        fail := false;
        PutLoop(lpndx, lpstate[lpndx].(enable := !failed));
        ok := true;
      } else if lpstate[lpndx].state == LoopUntil {
        fail := false;
        PutLoop(lpndx, lpstate[lpndx].(enable := failed));
        ok := true;
      } else if iestate[iendx].state == ItefIf {
        fail := false;
        PutIf(iendx, iestate[iendx].(ifcond := iestate[iendx].inverted != failed));
        ok := true;
      } else {
        fail := failed;
        ok := !failed;
      }
    }

    method FailLoop()
      requires Valid()
      modifies this, lpstate
      ensures View() == LoopError(old(View())).np
    {
      jump := false;
      PutLoop(0, Loop(LoopNormal, true, lpstate[0].iendx, 0));
    }

    method FailItef()
      requires Valid()
      modifies this, iestate
      ensures View() == ItefError(old(View())).np
    {
      PutIf(0, NORMAL_ITEF);
    }

    method OpenLoop(rest: Command, kind: LoopState, seekable: bool, top: nat) returns (words: Command, ok: bool)
      requires Valid()
      modifies this, lpstate
      ensures Token(View(), words, ok) == ControlState.OpenLoop(old(View()), rest, kind, seekable, top)
    {
      if !HasArgument(rest) || iestate[iendx].state == ItefIf
         || lpstate[lpndx].state == LoopWhile || lpstate[lpndx].state == LoopUntil || !seekable
         || lpndx >= lpstate.Length - 1
      {
        FailLoop();
        return [], false;
      }
      var enable := CmdEnabled();
      jump := false;
      PutLoop(lpndx + 1, Loop(kind, enable, iendx, top));
      return rest, true;
    }

    method CloseLoop()
      requires Valid() && lpstate[lpndx].state == LoopDo
      modifies this, lpstate
      ensures View() == (assert old(lpndx) >= 1; ControlState.CloseLoop(old(View())))
    {
      if lpstate[lpndx].enable {
        pos := lpstate[lpndx].topoffs;
        jump := true;
        PutLoop(lpndx, lpstate[lpndx].(state := LoopNormal));
      } else {
        PutLoop(lpndx, lpstate[lpndx].(state := LoopNormal, enable := true));
      }
      lpndx := lpndx - 1;
    }

    method LoopToken(cmd: Command, seekable: bool, top: nat) returns (words: Command, ok: bool)
      requires Valid()
      modifies this, lpstate
      ensures Valid() && Token(View(), words, ok) == ControlState.LoopToken(old(View()), cmd, seekable, top)
    {
      LoopTokenSafe(View(), cmd, seekable, top, iestate.Length);
      if cmd == [] {
        return cmd, true;
      }
      var awaits := lpstate[lpndx].state == LoopWhile || lpstate[lpndx].state == LoopUntil;
      match cmd[0]
      case While => words, ok := OpenLoop(cmd[1..], LoopWhile, seekable, top);
      case Until => words, ok := OpenLoop(cmd[1..], LoopUntil, seekable, top);
      case Do =>
        if awaits {
          PutLoop(lpndx, lpstate[lpndx].(state := LoopDo));
          words, ok := cmd[1..], true;
        } else {
          FailLoop();
          words, ok := [], false;
        }
      case Done =>
        words := [];
        ok := |cmd| == 1 && lpstate[lpndx].state == LoopDo;
        if ok {
          CloseLoop();
        } else {
          FailLoop();
        }
      case _ =>
        if awaits {
          FailLoop();
          words, ok := [], false;
        } else {
          words, ok := cmd, true;
        }
    }

    method ItefToken(cmd: Command) returns (words: Command, ok: bool)
      requires Valid()
      modifies this, iestate
      ensures Valid() && Token(View(), words, ok) == ControlState.ItefToken(old(View()), cmd)
    {
      ItefTokenSafe(View(), cmd, iestate.Length);
      if cmd == [] {
        return cmd, true;
      }
      var state := iestate[iendx].state;
      match cmd[0] {
        case If =>
          var inverted := |cmd| > 1 && cmd[1] == Bang;
          words := if inverted then cmd[2..] else cmd[1..];
          ok := HasArgument(words) && state != ItefIf && iendx < iestate.Length - 1;
          if ok {
            var disabled := !CmdEnabled();
            PutIf(iendx + 1, Itef(ItefIf, disabled, false, inverted));
          }
        case Then =>
          words := cmd[1..];
          ok := state == ItefIf;
          if ok {
            PutIf(iendx, iestate[iendx].(state := ItefThen));
          }
        case Else =>
          words := cmd[1..];
          ok := state == ItefThen;
          if ok {
            PutIf(iendx, iestate[iendx].(state := ItefElse));
          }
        case Fi =>
          words := [];
          ok := |cmd| == 1 && (state == ItefThen || state == ItefElse);
          if ok {
            iendx := iendx - 1;
          }
        case _ =>
          words := cmd;
          ok := state != ItefIf;
      }
      if !ok {
        FailItef();
        words := [];
      }
    }

    method Break()
      requires Valid()
      modifies this, lpstate
      ensures View() == BreakCmd(old(View()))
    {
      if lpstate[lpndx].state == LoopDo {
        iendx := lpstate[lpndx].iendx;
        PutLoop(lpndx, lpstate[lpndx].(enable := false));
      }
    }

    // `results` gives the results of the commands to come; the rest of it is returned.
    method ParseCommand(cmd: Command, seekable: bool, top: nat, results: seq<bool>)
        returns (events: seq<Event>, rest: seq<bool>, ret: Ret)
      requires Valid()
      modifies this, iestate, lpstate
      ensures Valid()
      ensures Parsed(View(), events, rest, ret) == ControlState.ParseCommand(old(View()), cmd, seekable, top, results)
    {
      events, rest := [], results;
      var words, ok := LoopToken(cmd, seekable, top);
      if ok {
        words, ok := ItefToken(words);
      }
      if !ok {
        ok := SaveResult(true);
        ret := if ok then Ok else Error;
        return;
      }
      var enabled := CmdEnabled();
      if words == [] || !enabled {
        ret := Ok;
        return;
      }
      ExecuteSafe(View(), words, results, iestate.Length);
      events, rest, ret := Execute(words, results);
    }

    method Execute(words: Command, results: seq<bool>) returns (events: seq<Event>, rest: seq<bool>, ret: Ret)
      requires Valid() && words != []
      modifies this, iestate, lpstate
      ensures Valid()
      ensures Parsed(View(), events, rest, ret) == ControlState.Execute(old(View()), words, results)
    {
      events, rest := [], results;
      var ok;
      if words[0] == ControlState.Break {
        assert BreakCmd(View()).Safe(iestate.Length);
        Break();
        events := [Event(words, false)];
        ok := SaveResult(false);
      } else if results == [] {
        ret := Starving;
        return;
      } else {
        events := [Event(words, results[0])];
        rest := results[1..];
        ok := SaveResult(results[0]);
      }
      ret := if ok then Ok else Error;
    }
  }
}
