/** The undo/redo history (`TextEditorController`), generic in the command
    type as the source is generic in its `TextCommand` interface. Each
    operation returns the new controller state and the command calls it
    made, in order. */
module TextEditorController {

  /** A call the controller makes on a command: `execute()` or `undo()`. */
  datatype Call<C> = ExecuteCall(cmd: C) | UndoCall(cmd: C)

  /** `commandHistory` and `currentCommandIndex`. */
  datatype Controller<C> = Controller(history: seq<C>, index: int)

  datatype Step<C> = Step(after: Controller<C>, calls: seq<Call<C>>)

  /** The reachable states: the cursor is -1 or points into the history. */
  predicate Valid<C>(ctl: Controller<C>) {
    -1 <= ctl.index < |ctl.history|
  }

  /** Whether `undo` and `redo` would do anything. */
  predicate CanUndo<C>(ctl: Controller<C>) {
    ctl.index >= 0
  }

  predicate CanRedo<C>(ctl: Controller<C>) {
    ctl.index < |ctl.history| - 1
  }

  /** A new controller: empty history, cursor -1. */
  function NewController<C>(): (ctl: Controller<C>)
    ensures Valid(ctl) && |ctl.history| == 0 && ctl.index == -1
    ensures !CanUndo(ctl) && !CanRedo(ctl)
  {
    Controller([], -1)
  }

  /** `executeCommand`: discards the commands after the cursor, appends
      `cmd`, points the cursor at it, then runs `cmd.execute()` once. */
  function ExecuteCommand<C>(ctl: Controller<C>, cmd: C): (s: Step<C>)
    requires Valid(ctl)
    ensures Valid(s.after)
    ensures |s.after.history| == ctl.index + 2
    ensures s.after.history[..ctl.index + 1] == ctl.history[..ctl.index + 1]
    ensures s.after.history[ctl.index + 1] == cmd
    ensures s.after.index == |s.after.history| - 1 && !CanRedo(s.after)
    ensures s.calls == [ExecuteCall(cmd)]
  {
    var kept := if ctl.index != |ctl.history| - 1 then ctl.history[..ctl.index + 1] else ctl.history;
    Step(Controller(kept + [cmd], ctl.index + 1), [ExecuteCall(cmd)])
  }

  /** `undo`: when something is in effect, runs its `undo()` and steps the
      cursor back; otherwise does nothing. */
  function Undo<C>(ctl: Controller<C>): (s: Step<C>)
    requires Valid(ctl)
    ensures Valid(s.after)
    ensures s.after.history == ctl.history
    ensures CanUndo(ctl) ==>
              s.after.index == ctl.index - 1 && s.calls == [UndoCall(ctl.history[ctl.index])]
    ensures !CanUndo(ctl) ==> s.after == ctl && s.calls == []
  {
    if ctl.index >= 0 then
      Step(ctl.(index := ctl.index - 1), [UndoCall(ctl.history[ctl.index])])
    else
      Step(ctl, [])
  }

  /** `redo`: when there is an undone command after the cursor, steps the
      cursor onto it and runs its `execute()`; otherwise does nothing. */
  function Redo<C>(ctl: Controller<C>): (s: Step<C>)
    requires Valid(ctl)
    ensures Valid(s.after)
    ensures s.after.history == ctl.history
    ensures CanRedo(ctl) ==>
              s.after.index == ctl.index + 1 && s.calls == [ExecuteCall(ctl.history[ctl.index + 1])]
    ensures !CanRedo(ctl) ==> s.after == ctl && s.calls == []
  {
    if ctl.index < |ctl.history| - 1 then
      var next := ctl.index + 1;
      Step(ctl.(index := next), [ExecuteCall(ctl.history[next])])
    else
      Step(ctl, [])
  }

  /** An effective undo is undone by redo: the controller returns to where
      it was, and redo re-executes the command undo reversed. */
  lemma RedoAfterUndo<C>(ctl: Controller<C>)
    requires Valid(ctl) && CanUndo(ctl)
    ensures Redo(Undo(ctl).after).after == ctl
    ensures Redo(Undo(ctl).after).calls == [ExecuteCall(ctl.history[ctl.index])]
  {
  }

  /** An effective redo is undone by undo. */
  lemma UndoAfterRedo<C>(ctl: Controller<C>)
    requires Valid(ctl) && CanRedo(ctl)
    ensures Undo(Redo(ctl).after).after == ctl
    ensures Undo(Redo(ctl).after).calls == [UndoCall(ctl.history[ctl.index + 1])]
  {
  }

  /** Undo right after execute takes the cursor back to where it was and
      reverses the command just executed. */
  lemma UndoAfterExecute<C>(ctl: Controller<C>, cmd: C)
    requires Valid(ctl)
    ensures Undo(ExecuteCommand(ctl, cmd).after).after.index == ctl.index
    ensures Undo(ExecuteCommand(ctl, cmd).after).calls == [UndoCall(cmd)]
  {
  }

  /** `n` successive undos (stopping silently at the start). */
  function UndoTimes<C>(ctl: Controller<C>, n: nat): (r: Controller<C>)
    requires Valid(ctl)
    ensures Valid(r) && r.history == ctl.history
    ensures r.index == if ctl.index - n >= -1 then ctl.index - n else -1
    decreases n
  {
    if n == 0 then ctl else UndoTimes(Undo(ctl).after, n - 1)
  }

  /** A new command after any number of undos makes the undone commands
      unreachable: the history keeps the commands still in effect, then the
      new one, and none of the undone ones; redo changes nothing and runs
      nothing. */
  lemma ExecuteDiscardsRedo<C>(ctl: Controller<C>, n: nat, cmd: C)
    requires Valid(ctl)
    ensures var u := UndoTimes(ctl, n);
            var s := ExecuteCommand(u, cmd);
            && s.after.history == ctl.history[..u.index + 1] + [cmd]
            && Redo(s.after) == Step(s.after, [])
  {
    var u := UndoTimes(ctl, n);
    var s := ExecuteCommand(u, cmd);
    assert s.after.history == s.after.history[..u.index + 1] + [cmd];
  }
}
