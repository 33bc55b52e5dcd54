# Design-pattern catalogue: a Dafny model of its stateful logic

The repository is a set of small Kotlin/Jetpack Compose examples of the classic
design patterns. Most of it is UI rendering. This project models the parts that
carry behaviour, each as immutable datatypes with pure transition functions, and
proves their properties:

- **Command** (`TextEditorController`, `UpdateTextCommand`): a linear undo/redo
  history, a sequence of commands plus a cursor. The module
  `TextEditorController` is generic in the command type and returns the calls it
  makes on commands (`execute()` / `undo()`) as a trace. `UpdateTextCommand`
  models the text-edit command and the part of `TextFieldValue` it writes (the
  text and a selection range). `CommandSession` wires the two together the way
  the command screen does: every change the text field reports becomes a
  command built from the field's current value. It proves that the field always
  shows the new text of the command under the cursor, or `""` at cursor −1.
- **Interpreter** (`WidgetParser.parseScript`, in the package named
  `iterator`): a line-oriented parser. The module `Strings` supplies stand-ins
  for Kotlin's `lines()`, `trim()`, `startsWith()` and `Char.isWhitespace`.
- **Chain of responsibility** (`InteractionHandler` with the button and form
  handlers): a handler is a kind plus an optional successor. `HandleInteraction`
  returns the messages passed to `onResult`, in call order.
- **Proxy** (`WeatherServiceProxy`): a memoised single value. The wrapped
  service is a parameter `api: nat -> string`, where `api(k)` is the reply to
  its k-th call.
- **Flyweight** (`IconFactory`): a memo map filled by `getOrPut`. Instance
  identity is modelled by a creation serial.
- **Singleton** (`ThemeConfig`): a boolean toggle. `IsDarkModeEnabled` is a
  pure query, so reading the flag cannot change it.

The controller's fields are private and only change through its three
operations. Its operations therefore require `Valid` (−1 ≤ cursor <
|history|), which holds from construction onward (`NewController`) and is
preserved by every operation.

## Model

| member | source | states |
|---|---|---|
| TextEditorController.NewController | app/src/main/java/com/cavin/designpatterns/patterns/command/TextEditorController.kt:4-5 | a new controller has an empty history and cursor −1; neither undo nor redo can act |
| TextEditorController.ExecuteCommand | app/src/main/java/com/cavin/designpatterns/patterns/command/TextEditorController.kt:7-14 | keeps history[0..cursor] and drops the rest; appends the command; leaves the cursor on it as the last entry, so nothing is left to redo; runs exactly one call, `execute()` of the new command; keeps the cursor bounds |
| TextEditorController.Undo | app/src/main/java/com/cavin/designpatterns/patterns/command/TextEditorController.kt:16-21 | history unchanged; with cursor ≥ 0, runs `undo()` of the command under the cursor and steps back one; at −1 it changes nothing and runs nothing; keeps the cursor bounds |
| TextEditorController.Redo | app/src/main/java/com/cavin/designpatterns/patterns/command/TextEditorController.kt:23-28 | history unchanged; with undone commands ahead, steps forward and runs `execute()` of the command now under the cursor; at the last entry it changes nothing and runs nothing |
| TextEditorController.RedoAfterUndo | app/src/main/java/com/cavin/designpatterns/patterns/command/TextEditorController.kt:16-28 | an effective undo followed by redo restores the controller exactly and re-executes the command that was undone |
| TextEditorController.UndoAfterRedo | app/src/main/java/com/cavin/designpatterns/patterns/command/TextEditorController.kt:16-28 | an effective redo followed by undo restores the controller exactly and reverses the command that was redone |
| TextEditorController.UndoAfterExecute | app/src/main/java/com/cavin/designpatterns/patterns/command/TextEditorController.kt:7-21 | undo right after execute returns the cursor to its earlier place and reverses the command just executed |
| TextEditorController.UndoTimes | app/src/main/java/com/cavin/designpatterns/patterns/command/TextEditorController.kt:16-21 | n undos move the cursor back n places, stopping at −1, and never touch the history |
| TextEditorController.ExecuteDiscardsRedo | app/src/main/java/com/cavin/designpatterns/patterns/command/TextEditorController.kt:7-28 | executing a command after any number of undos leaves the history as the commands still in effect followed by the new one, so the undone commands are gone, and the next redo is a no-op |
| UpdateTextCommand.EmptyField | app/src/main/java/com/cavin/designpatterns/views/CommandView.kt:28 | the screen's initial field value is empty text with the cursor at its end |
| UpdateTextCommand.Build | app/src/main/java/com/cavin/designpatterns/patterns/command/UpdateTextCommand.kt:7-12 | a command captures the text of the field value it is built from: undoing it writes that text back, and executing it writes the new text |
| UpdateTextCommand.Execute | app/src/main/java/com/cavin/designpatterns/patterns/command/UpdateTextCommand.kt:14-20 | the one value `execute()` emits is the new text with the selection collapsed at its length in UTF-16 code units, Kotlin's `String.length` |
| UpdateTextCommand.Undo | app/src/main/java/com/cavin/designpatterns/patterns/command/UpdateTextCommand.kt:22-28 | the one value `undo()` emits is the captured old text with the selection collapsed at its length in UTF-16 code units |
| UpdateTextCommand.UndoRestoresEndCursorField | app/src/main/java/com/cavin/designpatterns/patterns/command/UpdateTextCommand.kt:12-27 | undoing a command built from a field whose cursor is at the end gives that field value back exactly |
| UpdateTextCommand.SelectionNotRestored | app/src/main/java/com/cavin/designpatterns/patterns/command/UpdateTextCommand.kt:22-28 | when the cursor was not at the end, undo restores the text but not the original selection |
| CommandSession.Perform | app/src/main/java/com/cavin/designpatterns/views/CommandView.kt:49 | the field ends up holding the value emitted by the last command call, or is untouched when no call was made |
| CommandSession.Initial | app/src/main/java/com/cavin/designpatterns/views/CommandView.kt:28-29 | the screen starts coherent: empty text and an empty history |
| CommandSession.Edit | app/src/main/java/com/cavin/designpatterns/views/CommandView.kt:45-52 | a reported change, run as a command built from the current field, keeps the screen coherent, shows the new text, advances the cursor by one, and leaves the history as the commands in effect followed by one from the old text to the new |
| CommandSession.UndoEdit | app/src/main/java/com/cavin/designpatterns/views/CommandView.kt:61-66 | the undo button keeps the screen coherent; it shows the old text of the command that was under the cursor, or changes nothing at −1 |
| CommandSession.RedoEdit | app/src/main/java/com/cavin/designpatterns/views/CommandView.kt:68-73 | the redo button keeps the screen coherent; it shows the new text of the command redone, or changes nothing at the last entry |
| CommandSession.Apply | app/src/main/java/com/cavin/designpatterns/views/CommandView.kt:43-73 | any single user action (typing, undo, redo) preserves screen coherence |
| CommandSession.RunKeepsFieldInSync | app/src/main/java/com/cavin/designpatterns/views/CommandView.kt:43-73 | after any sequence of actions the field text equals history[cursor].newText, or "" at −1, and the history stays chained (each oldText is the previous newText) |
| CommandSession.SameTextIsRecorded | app/src/main/java/com/cavin/designpatterns/views/CommandView.kt:45-52 | a change report that keeps the text still pushes a command onto the history, and leaves the field value as it was |
| CommandSession.UndoAfterEditRestoresText | app/src/main/java/com/cavin/designpatterns/views/CommandView.kt:45-66 | undo right after an edit restores the previous field value and cursor index |
| CommandSession.TypeAfterRedo | app/src/main/java/com/cavin/designpatterns/patterns/command/TextEditorController.kt:7-28 | typing "X" over "A" while the "AB" command is undone replaces that command by one from "A" to "X", after which redo changes nothing |
| CommandSession.Walkthrough | app/src/main/java/com/cavin/designpatterns/patterns/command/TextEditorController.kt:7-28 | the sequence type "A", type "AB", undo, undo, redo, type "X" shows "A", "AB", "A", "", "A", "X"; the "AB" command is discarded and a final redo changes nothing |
| Strings.Trim | app/src/main/java/com/cavin/designpatterns/patterns/iterator/WidgetParser.kt:7 | the trimmed line is a slice of the line with only whitespace outside it; when non-empty it starts and ends with non-whitespace |
| Strings.TrimEnd | app/src/main/java/com/cavin/designpatterns/patterns/iterator/WidgetParser.kt:7 | the end of the trimmed slice: everything after it is whitespace, and the character just before it is not, unless the slice is empty |
| Strings.TrimUnique | app/src/main/java/com/cavin/designpatterns/patterns/iterator/WidgetParser.kt:7 | any slice with only whitespace outside it and non-whitespace at both ends (or an all-whitespace line) is the trimmed line: trimming is determined by that characterisation |
| Strings.TrimBounds | app/src/main/java/com/cavin/designpatterns/patterns/iterator/WidgetParser.kt:7 | the trimmed line's bounds exist and satisfy that characterisation, including the non-whitespace ends |
| Strings.TrimOfTrimmed | app/src/main/java/com/cavin/designpatterns/patterns/iterator/WidgetParser.kt:7 | a string with non-whitespace at both ends is its own trimmed form |
| Strings.TrimIgnoresPadding | app/src/main/java/com/cavin/designpatterns/patterns/iterator/WidgetParser.kt:7 | adding whitespace before and after a string does not change its trimmed form |
| Strings.Utf16Length | app/src/main/java/com/cavin/designpatterns/patterns/command/UpdateTextCommand.kt:17 | the length Kotlin's `String.length` reports: one unit per character, two for a character outside the Basic Multilingual Plane, so between the character count and twice it, and equal to it when there is no such character |
| Strings.EmojiIsTwoUnits | app/src/main/java/com/cavin/designpatterns/patterns/command/UpdateTextCommand.kt:17 | a single emoji is one character but two UTF-16 code units |
| Strings.Lines | app/src/main/java/com/cavin/designpatterns/patterns/iterator/WidgetParser.kt:6 | a script splits into at least one line, and no line contains a line-break character |
| Strings.LinesJoinRoundTrip | app/src/main/java/com/cavin/designpatterns/patterns/iterator/WidgetParser.kt:6 | splitting break-free lines joined by line feeds gives back exactly those lines |
| WidgetParser.ParseLine | app/src/main/java/com/cavin/designpatterns/patterns/iterator/WidgetParser.kt:7-19 | a line yields Text exactly when its trimmed form starts with "Text:", carrying the trimmed remainder; it yields Image exactly when the trimmed form starts with "Image:" (and not "Text:") and the trimmed remainder starts with "https://", carrying that remainder; otherwise nothing |
| WidgetParser.TextLineRoundTrip | app/src/main/java/com/cavin/designpatterns/patterns/iterator/WidgetParser.kt:9-11 | a "Text:" line built from an already-trimmed text parses back to a Text component holding exactly that text |
| WidgetParser.ImageLineRoundTrip | app/src/main/java/com/cavin/designpatterns/patterns/iterator/WidgetParser.kt:13-17 | an "Image:" line built from an already-trimmed https URL parses back to an Image component holding exactly that URL |
| WidgetParser.ParseLineIgnoresPadding | app/src/main/java/com/cavin/designpatterns/patterns/iterator/WidgetParser.kt:7 | whitespace added around a line does not change what it parses to |
| WidgetParser.Collect | app/src/main/java/com/cavin/designpatterns/patterns/iterator/WidgetParser.kt:5-21 | each line adds at most one component, so there are never more components than lines |
| WidgetParser.ParseScript | app/src/main/java/com/cavin/designpatterns/patterns/iterator/WidgetParser.kt:4-22 | the component list is no longer than the script's line list |
| WidgetParser.CollectAppend | app/src/main/java/com/cavin/designpatterns/patterns/iterator/WidgetParser.kt:6-20 | parsing two blocks of lines gives the first block's components followed by the second's, so output order follows line order |
| WidgetParser.Contributing | app/src/main/java/com/cavin/designpatterns/patterns/iterator/WidgetParser.kt:6-20 | the indices of the producing lines are in range and strictly ascending, and each names a line that produces a component |
| WidgetParser.CollectProvenance | app/src/main/java/com/cavin/designpatterns/patterns/iterator/WidgetParser.kt:6-20 | there is one component per producing line, and the j-th component is exactly what the j-th producing line yields |
| WidgetParser.ContributingComplete | app/src/main/java/com/cavin/designpatterns/patterns/iterator/WidgetParser.kt:6-20 | every line that yields a component is among the producing lines: nothing is skipped |
| WidgetParser.ParseScriptProvenance | app/src/main/java/com/cavin/designpatterns/patterns/iterator/WidgetParser.kt:4-22 | a script's components are, in order, exactly the results of its producing lines |
| WidgetParser.UnrecognisedLineIsDropped | app/src/main/java/com/cavin/designpatterns/patterns/iterator/WidgetParser.kt:8-19 | a line matching neither prefix, blank lines included, contributes nothing, with no error |
| WidgetParser.EmptyScript | app/src/main/java/com/cavin/designpatterns/patterns/iterator/WidgetParser.kt:4-22 | the empty script yields no components |
| WidgetParser.PrefixIsCaseSensitive | app/src/main/java/com/cavin/designpatterns/patterns/iterator/WidgetParser.kt:9 | a line whose trimmed form starts with lower-case "text:" yields nothing |
| Interaction.NewHandler | app/src/main/java/com/cavin/designpatterns/patterns/chain_of_responsibility/InteractionHandler.kt:5 | a handler starts with no successor |
| Interaction.SetNextHandler | app/src/main/java/com/cavin/designpatterns/patterns/chain_of_responsibility/InteractionHandler.kt:7-9 | the handler keeps its kind and gets exactly the given successor |
| Interaction.LastSuccessorWins | app/src/main/java/com/cavin/designpatterns/patterns/chain_of_responsibility/InteractionHandler.kt:7-9 | a second setNextHandler overrides the first |
| Interaction.HandleInteraction | app/src/main/java/com/cavin/designpatterns/patterns/chain_of_responsibility/ButtonInteractionHandler.kt:4-10 | onResult is called exactly once; on an exact match of the handler's type, with its own answer and without consulting the successor; otherwise the same type goes to handleNext (the form handler, FormInteractionHandler.kt:4-10, is the same with its own type and answer) |
| Interaction.HandleNext | app/src/main/java/com/cavin/designpatterns/patterns/chain_of_responsibility/InteractionHandler.kt:11-17 | onResult is called exactly once; with no successor, with "Unrecognized interaction: " + type; otherwise the successor handles the unchanged type and this handler emits nothing itself |
| Interaction.FirstAnswer | app/src/main/java/com/cavin/designpatterns/patterns/chain_of_responsibility/InteractionHandler.kt:11-19 | reference dispatch over a list of kinds: the answer of the first kind accepting the type, and the fallback when none does |
| Interaction.DispatchIsFirstMatch | app/src/main/java/com/cavin/designpatterns/patterns/chain_of_responsibility/InteractionHandler.kt:11-19 | over any finite chain, onResult receives exactly one message: the first recognising handler's answer, else the tail's fallback |
| Interaction.ScreenChainMessages | app/src/main/java/com/cavin/designpatterns/views/ChainOfResponsibilityView.kt:32-34 | in the Button→Form chain, "buttonClick", "formSubmit" and "unknown" give the button answer, the form answer and "Unrecognized interaction: unknown" |
| Interaction.FormTailRejectsButtonClick | app/src/main/java/com/cavin/designpatterns/patterns/chain_of_responsibility/FormInteractionHandler.kt:4-10 | the form handler alone answers "buttonClick" with the fallback; a chain never looks backwards |
| Interaction.MatchIsCaseSensitive | app/src/main/java/com/cavin/designpatterns/patterns/chain_of_responsibility/ButtonInteractionHandler.kt:5 | "ButtonClick" is not "buttonClick": matching is exact |
| WeatherProxy.NewProxy | app/src/main/java/com/cavin/designpatterns/patterns/proxy/WeatherServiceProxy.kt:4 | the cache starts empty and the service has not been called |
| WeatherProxy.GetWeatherData | app/src/main/java/com/cavin/designpatterns/patterns/proxy/WeatherServiceProxy.kt:6-15 | with an empty cache it calls the service once and caches and returns its reply; with a cached value it returns that value and leaves the proxy unchanged |
| WeatherProxy.CachedIsStable | app/src/main/java/com/cavin/designpatterns/patterns/proxy/WeatherServiceProxy.kt:11-13 | once cached, any number of calls return the cached string and never call the service |
| WeatherProxy.FetchOnce | app/src/main/java/com/cavin/designpatterns/patterns/proxy/WeatherServiceProxy.kt:6-14 | from a fresh proxy, n ≥ 1 calls all return the first fetched string, and the service is called exactly once |
| WeatherProxy.GetWeatherFiveTimes | app/src/main/java/com/cavin/designpatterns/views/ProxyView.kt:49-55 | five calls on the proxy return one string five times, joined by line feeds, at the cost of at most one service call |
| WeatherProxy.DefaultFiveTimes | app/src/main/java/com/cavin/designpatterns/patterns/proxy/WeatherServiceImpl.kt:3-6 | with the default service the screen text is "Sunny, 25°C" five times, one per line |
| IconFactory.Empty | app/src/main/java/com/cavin/designpatterns/patterns/flyweight/IconFactory.kt:6 | the factory starts with an empty map and satisfies its invariant |
| IconFactory.GetIcon | app/src/main/java/com/cavin/designpatterns/patterns/flyweight/IconFactory.kt:8-10 | returns a flyweight wrapping the key, stored under the key; an existing entry is returned unchanged; otherwise a new instance with a new serial is created; other entries are untouched and none is removed |
| IconFactory.GetIcons | app/src/main/java/com/cavin/designpatterns/patterns/flyweight/IconFactory.kt:8-10 | after a run of requests the map's keys are the earlier keys plus the requested ones, and the invariant (entry wraps its key, one serial per instance) holds |
| IconFactory.KeySet | app/src/main/java/com/cavin/designpatterns/patterns/flyweight/IconFactory.kt:9 | the distinct keys of a request run are exactly the requested keys |
| IconFactory.EntriesAreKept | app/src/main/java/com/cavin/designpatterns/patterns/flyweight/IconFactory.kt:6-9 | an entry present before a run of requests maps to the same flyweight afterwards |
| IconFactory.RepeatedRequestSharesInstance | app/src/main/java/com/cavin/designpatterns/patterns/flyweight/IconFactory.kt:9 | a second request for an equal key returns the instance created by the first and changes nothing |
| IconFactory.CreatedCountsDistinctKeys | app/src/main/java/com/cavin/designpatterns/patterns/flyweight/IconFactory.kt:9 | from an empty factory, the number of flyweights created equals the number of distinct keys requested |
| ThemeConfig.Initial | app/src/main/java/com/cavin/designpatterns/patterns/singleton/ThemeConfig.kt:4 | dark mode starts disabled |
| ThemeConfig.IsDarkModeEnabled | app/src/main/java/com/cavin/designpatterns/patterns/singleton/ThemeConfig.kt:6 | reads the flag: true exactly for the dark-mode configuration; being a pure query, it cannot change the configuration |
| ThemeConfig.ToggleDarkMode | app/src/main/java/com/cavin/designpatterns/patterns/singleton/ThemeConfig.kt:8-10 | toggling negates the flag |
| ThemeConfig.ToggleTwiceRestores | app/src/main/java/com/cavin/designpatterns/patterns/singleton/ThemeConfig.kt:8-10 | two toggles restore the configuration |
| ThemeConfig.ToggleParity | app/src/main/java/com/cavin/designpatterns/patterns/singleton/ThemeConfig.kt:4-10 | after n toggles from the start, dark mode is on exactly when n is odd |

## Left out

- Compose rendering: every composable (`interpret`, `render`, the screens) and the decorators, theme components and card factories. Only the state those screens feed into the modelled logic is kept.
- Composite pricing (`Product`, `Category`): floating-point arithmetic.
- `WeatherDataAdapter`: float formatting and Android resource identifiers.
- Facade, bridge, audio, notification and analytics classes: they only print.
- `Singleton.kt`: its point is thread-safe lazy initialisation, which a sequential model cannot express.
- The proxy's coroutine suspension and log lines. `getWeatherData` is modelled as an ordinary sequential call.
- Strings.Trim: the JVM's `trim()` is not re-derived. `Strings.IsWhitespace` lists Kotlin's whitespace set instead: Java `isWhitespace` or `isSpaceChar`.
- Strings.Lines: the JVM's `lines()` is not re-derived. The model splits at "\r\n", "\n" and "\r", which are the terminators `lines()` recognises.
- Cyclic handler chains: `setNextHandler` permits them and dispatch then never ends. A datatype value cannot contain itself, so every modelled chain is finite and acyclic.
- Interaction.SetNextHandler: handlers are values. A successor changed after it was linked is not seen through the earlier link, as it would be through a Kotlin reference.
- IconFactory.GetIcon: instance identity is a creation serial, and `ImageVector` is any type with equality.
- UpdateTextCommand.Execute: `TextFieldValue` is reduced to text and selection. Composition state is not modelled, and the one `onTextChanged` call is the value the function returns. Strings are sequences of Unicode characters; the selection offsets are computed in UTF-16 code units by `Strings.Utf16Length`, but a string holding an unpaired surrogate is not representable.
- UpdateTextCommand.Undo: the same reduction of `TextFieldValue` and of `onTextChanged` as for `Execute`.
- TextEditorController.ExecuteCommand: requires `Valid`, the cursor bound. The source cannot leave that bound, because its fields are private.
- TextEditorController.Undo: requires `Valid`, for the same reason as `ExecuteCommand`.
- TextEditorController.Redo: requires `Valid`, for the same reason as `ExecuteCommand`.
- `MainActivity`, `CardFactoryProvider`, `AppDocument.copy`: platform wiring and compiler-generated code.
