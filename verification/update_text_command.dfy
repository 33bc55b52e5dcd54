/** The text-edit command (`UpdateTextCommand`) and the slice of Compose's
    `TextFieldValue` it touches: the text and a selection range. */
module UpdateTextCommand {
  import opened Strings

  /** `TextRange(start, end)`; a collapsed range is a plain cursor. */
  datatype TextRange = TextRange(start: nat, end: nat)

  /** `TextFieldValue(text, selection)`. */
  datatype FieldValue = FieldValue(text: string, selection: TextRange)

  /** The selection is a cursor placed just after the last character.
      Offsets count UTF-16 code units, as Kotlin's `String.length` does. */
  predicate CursorAtEnd(v: FieldValue) {
    v.selection.start == Utf16Length(v.text) && v.selection.end == Utf16Length(v.text)
  }

  /** `TextFieldValue(text = "")`: empty text, cursor at 0. */
  function EmptyField(): (v: FieldValue)
    ensures v.text == "" && CursorAtEnd(v)
  {
    FieldValue("", TextRange(0, 0))
  }

  /** A command; `oldText` is captured when it is built and, the command
      being immutable, never changes afterwards. */
  datatype Command = UpdateText(oldText: string, newText: string)

  /** The constructor: captures the text of the field value it is given. */
  function Build(controller: FieldValue, newText: string): (c: Command)
    ensures Undo(c).text == controller.text
    ensures Execute(c).text == newText
  {
    UpdateText(controller.text, newText)
  }

  /** The value `execute()` hands to `onTextChanged` (its one call):
      the new text, cursor at its end. */
  function Execute(c: Command): (v: FieldValue)
    ensures v.text == c.newText && CursorAtEnd(v)
  {
    FieldValue(c.newText, TextRange(Utf16Length(c.newText), Utf16Length(c.newText)))
  }

  /** The value `undo()` hands to `onTextChanged` (its one call):
      the captured old text, cursor at its end. */
  function Undo(c: Command): (v: FieldValue)
    ensures v.text == c.oldText && CursorAtEnd(v)
  {
    FieldValue(c.oldText, TextRange(Utf16Length(c.oldText), Utf16Length(c.oldText)))
  }

  /** Undoing a command built from a field value whose cursor is at the end
      gives that very value back. */
  lemma UndoRestoresEndCursorField(v: FieldValue, newText: string)
    requires CursorAtEnd(v)
    ensures Undo(Build(v, newText)) == v
  {
  }

  /** The original selection is not restored: when the cursor was anywhere
      but the end, undo yields a different field value. */
  lemma SelectionNotRestored(v: FieldValue, newText: string)
    requires !CursorAtEnd(v)
    ensures Undo(Build(v, newText)) != v
    ensures Undo(Build(v, newText)).text == v.text
  {
  }
}
