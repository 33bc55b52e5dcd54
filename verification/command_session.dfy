/** The text editor screen of the command example: one controller and one
    text field. Every change the field reports becomes an `UpdateText`
    command built from the field's current value and run through the
    controller; the undo and redo buttons call the controller. */
module CommandSession {
  import opened UpdateTextCommand
  import TE = TextEditorController

  datatype Session = Session(editor: TE.Controller<Command>, field: FieldValue)

  /** The user's actions on the screen. */
  datatype Action = Type(newText: string) | PressUndo | PressRedo

  /** The field after the controller's command calls, each of which hands
      one value to `onTextChanged`, replacing the field's value. */
  function Perform(field: FieldValue, calls: seq<TE.Call<Command>>): (r: FieldValue)
    ensures |calls| == 0 ==> r == field
    ensures |calls| > 0 && calls[|calls| - 1].ExecuteCall? ==> r == Execute(calls[|calls| - 1].cmd)
    ensures |calls| > 0 && calls[|calls| - 1].UndoCall? ==> r == Undo(calls[|calls| - 1].cmd)
    decreases |calls|
  {
    if |calls| == 0 then field
    else
      var emitted := match calls[0]
        case ExecuteCall(c) => Execute(c)
        case UndoCall(c) => Undo(c);
      Perform(emitted, calls[1..])
  }

  /** The text the history says should be on screen: the new text of the
      command under the cursor, or the initial empty text. */
  function Shown(editor: TE.Controller<Command>): string
    requires TE.Valid(editor)
  {
    if editor.index == -1 then "" else editor.history[editor.index].newText
  }

  /** Consecutive commands chain: each one's `oldText` is the previous
      one's `newText`, and the first starts from the empty text. */
  ghost predicate Chained(history: seq<Command>) {
    && (|history| > 0 ==> history[0].oldText == "")
    && (forall k :: 0 < k < |history| ==> history[k].oldText == history[k - 1].newText)
  }

  /** The screen invariant: a reachable controller, a chained history, and
      the field showing exactly what the history says, cursor at the end. */
  ghost predicate Coherent(s: Session) {
    && TE.Valid(s.editor)
    && Chained(s.editor.history)
    && s.field.text == Shown(s.editor)
    && CursorAtEnd(s.field)
  }

  /** The screen when it first appears. */
  function Initial(): (s: Session)
    ensures Coherent(s)
    ensures s.field.text == "" && |s.editor.history| == 0
  {
    Session(TE.NewController(), EmptyField())
  }

  /** The field reports a change to `newText`. */
  function Edit(s: Session, newText: string): (r: Session)
    requires Coherent(s)
    ensures Coherent(r)
    ensures r.field.text == newText
    ensures r.editor.index == s.editor.index + 1
    ensures r.editor.history
              == s.editor.history[..s.editor.index + 1] + [UpdateText(s.field.text, newText)]
  {
    var cmd := Build(s.field, newText);
    var step := TE.ExecuteCommand(s.editor, cmd);
    var r := Session(step.after, Perform(s.field, step.calls));
    assert r.editor.history == s.editor.history[..s.editor.index + 1] + [cmd];
    r
  }

  /** The undo button. */
  function UndoEdit(s: Session): (r: Session)
    requires Coherent(s)
    ensures Coherent(r)
    ensures r.editor.history == s.editor.history
    ensures s.editor.index >= 0 ==>
              r.field.text == s.editor.history[s.editor.index].oldText
              && r.editor.index == s.editor.index - 1
    ensures s.editor.index == -1 ==> r == s
  {
    var step := TE.Undo(s.editor);
    Session(step.after, Perform(s.field, step.calls))
  }

  /** The redo button. */
  function RedoEdit(s: Session): (r: Session)
    requires Coherent(s)
    ensures Coherent(r)
    ensures r.editor.history == s.editor.history
    ensures s.editor.index < |s.editor.history| - 1 ==>
              r.field.text == s.editor.history[s.editor.index + 1].newText
              && r.editor.index == s.editor.index + 1
    ensures s.editor.index == |s.editor.history| - 1 ==> r == s
  {
    var step := TE.Redo(s.editor);
    Session(step.after, Perform(s.field, step.calls))
  }

  function Apply(s: Session, a: Action): (r: Session)
    requires Coherent(s)
    ensures Coherent(r)
  {
    match a
    case Type(t) => Edit(s, t)
    case PressUndo => UndoEdit(s)
    case PressRedo => RedoEdit(s)
  }

  /** The screen after a run of user actions. */
  function Run(s: Session, actions: seq<Action>): Session
    requires Coherent(s)
    decreases |actions|
  {
    if |actions| == 0 then s
    else
      assert Coherent(Apply(s, actions[0]));
      Run(Apply(s, actions[0]), actions[1..])
  }

  /** Whatever the user does, the field shows the new text of the command
      under the cursor, or the empty text when the cursor is -1. */
  lemma {:induction false} RunKeepsFieldInSync(actions: seq<Action>, s: Session)
    requires Coherent(s)
    ensures Coherent(Run(s, actions))
    ensures Run(s, actions).field.text == Shown(Run(s, actions).editor)
    decreases |actions|
  {
    if |actions| > 0 {
      RunKeepsFieldInSync(actions[1..], Apply(s, actions[0]));
    }
  }

  /** A change report that keeps the text (the field reports selection
      moves too) still records a command, and the cursor stays at the end. */
  lemma SameTextIsRecorded(s: Session)
    requires Coherent(s)
    ensures Edit(s, s.field.text).field == s.field
    ensures |Edit(s, s.field.text).editor.history| == s.editor.index + 2
  {
  }

  /** Undo right after an edit puts the previous text back. */
  lemma UndoAfterEditRestoresText(s: Session, newText: string)
    requires Coherent(s)
    ensures UndoEdit(Edit(s, newText)).field == s.field
    ensures UndoEdit(Edit(s, newText)).editor.index == s.editor.index
  {
  }

  /** The last step of the walk-through: typing "X" over "A" with the "AB"
      command undone drops that command, leaving nothing to redo. */
  lemma TypeAfterRedo(s: Session)
    requires Coherent(s)
    requires s.editor == TE.Controller([UpdateText("", "A"), UpdateText("A", "AB")], 0)
    ensures var r := Edit(s, "X");
            && r.field.text == "X" && r.editor.index == 1
            && r.editor.history == [UpdateText("", "A"), UpdateText("A", "X")]
            && RedoEdit(r) == r
  {
    var r := Edit(s, "X");
    assert s.field.text == "A";
    assert s.editor.history[..1] == [UpdateText("", "A")];
    assert r.editor.index == |r.editor.history| - 1;
  }

  /** The walk-through: type "A", type "AB", undo twice, redo, type "X":
      the "AB" command is gone, and redo no longer changes anything. */
  lemma Walkthrough()
    ensures var s1 := Edit(Initial(), "A");
            var s2 := Edit(s1, "AB");
            var s3 := UndoEdit(s2);
            var s4 := UndoEdit(s3);
            var s5 := RedoEdit(s4);
            var s6 := Edit(s5, "X");
            && s1.field.text == "A" && s1.editor.index == 0
            && s2.field.text == "AB" && s2.editor.index == 1
            && s3.field.text == "A" && s3.editor.index == 0
            && s4.field.text == "" && s4.editor.index == -1
            && s5.field.text == "A" && s5.editor.index == 0
            && s6.field.text == "X" && s6.editor.index == 1
            && s6.editor.history == [UpdateText("", "A"), UpdateText("A", "X")]
            && RedoEdit(s6) == s6
  {
    var s0 := Initial();
    var s1 := Edit(s0, "A");
    assert s1.editor.history == [UpdateText("", "A")];
    var s2 := Edit(s1, "AB");
    var h := [UpdateText("", "A"), UpdateText("A", "AB")];
    assert s2.editor == TE.Controller(h, 1);
    var s3 := UndoEdit(s2);
    assert s3.editor == TE.Controller(h, 0) && s3.field.text == "A";
    var s4 := UndoEdit(s3);
    assert s4.editor == TE.Controller(h, -1) && s4.field.text == "";
    var s5 := RedoEdit(s4);
    assert s5.editor == TE.Controller(h, 0) && s5.field.text == "A";
    TypeAfterRedo(s5);
    assert h[..1] == [UpdateText("", "A")];
  }
}
