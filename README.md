# pyvista-gui: command recording, script export and paired sliders

This project models the three pieces of logic in pyvista-gui that are more than
wiring between Qt and pyvista:

- **The call serialiser and the protected call** (`pyvista_gui/utilities.py`).
  `build_command` turns a method call on a tracked object into a statement such as
  `mesh1.add(3)`. It returns nothing when the object or the method has no counterpart
  in pyvista. `protected_fn` is the body that `protected_thread` runs on its worker
  thread. When the call returns, it records the statement. When the call (or the
  serialisation) raises, it logs the exception on the receiver and calls `show_error`
  once.
- **The session data** (`pyvista_gui/data.py`). `Data` holds the mesh list and the
  command log: append-unless-`None`, reset, remove-first-occurrence, a copy of the
  meshes, script loading and script export. Export is modelled as a function that
  returns the file's text: a header naming both versions, a blank line, then one
  line per command with `\` turned into `/`. An import-inference pass runs first.
- **The paired sliders** (`SlidersGroup` in `pyvista_gui/dialogs.py`). These are two
  integer positions, scaled by 1000. Each setter corrects the other slider so the
  "nocheck" value never passes the "fixed" value.

Modules: `Wrappers` (Option, Result), `Strings` (join, substring test, backslash
replacement, and readers for argument lists and lines), `Session` (the main-window
state reached through `self.parent`: `hold`, `save_commands`, the error surface,
the console), `Utilities`, `GuiData` and `Dialogs`.

The pieces outside the model become parameters:
- the pyvista module becomes a `Registry`, a map from attribute name to that
  attribute's own attribute names;
- `str()` of a non-string argument becomes a function `render`;
- `os.path.isfile` and the file's contents become arguments of `LoadScript`;
- the package versions become arguments of `SaveCommands`;
- the outcome of the wrapped call becomes an `Outcome` argument of `ProtectedCall`;
- the value the console's run of a script leaves in `hold` becomes an argument of
  `Execute` and `LoadScript`.

Behaviour of the code worth noting:
- An empty-string command IS stored. Only `None` is dropped.
- A missing `varname` on an eligible receiver raises `AttributeError` inside
  `build_command`. So a call that succeeded is reported as a failure, and nothing
  is recorded for it.
- An empty method name raises `IndexError` at `func_name[0]`. That also goes down
  the failure path.
- `store_command` does not consult `save_commands`.

## Model

| member | source | states |
|---|---|---|
| `Utilities.StripUnderscore` | pyvista_gui/utilities.py:23-25 | the name loses at most one character, and loses it exactly when that character is `_` |
| `Utilities.OneUnderscoreOnly` | pyvista_gui/utilities.py:23-25 | `__m` becomes `_m`: only one underscore is stripped |
| `Utilities.PrivateAlias` | pyvista_gui/utilities.py:23-36 | a call through `_m` is looked up and recorded exactly as a call through `m` |
| `Utilities.RenderArgs` | pyvista_gui/utilities.py:41-48 | one rendered string per argument, in the original order: strings in double quotes with no escaping, other values by `str()` |
| `Utilities.BuildCommand` | pyvista_gui/utilities.py:19-50 | no statement exactly when the receiver lacks `class_name`, pyvista lacks that class, or the class lacks the stripped name; `IndexError` exactly for an empty name; `AttributeError` exactly for an eligible receiver without `varname`; a statement otherwise |
| `Utilities.ArgumentsReadBack` | pyvista_gui/utilities.py:40-50 | a statement reads `varname.name(` … `)`, and the text between splits at ", " into the arguments after the receiver, in order, when no rendered argument holds a comma |
| `Utilities.NoArguments` | pyvista_gui/utilities.py:40-50 | a call with no argument after the receiver is recorded as `varname.name()` |
| `Utilities.ReceiverIgnored` | pyvista_gui/utilities.py:42 | the first positional argument never affects the outcome |
| `Utilities.KeywordsIgnored` | pyvista_gui/utilities.py:19-50 | keyword arguments never affect the outcome |
| `Utilities.SphereAddRecorded` | pyvista_gui/utilities.py:19-50 | `add(3)` on `mesh1`, a `Sphere` that has `add`, is recorded as `mesh1.add(3)` |
| `Utilities.SphereWithoutAddIgnored` | pyvista_gui/utilities.py:36-37 | the same call on a `Sphere` without `add` records nothing |
| `Utilities.ProtectedStep` | pyvista_gui/utilities.py:62-73 | a raised call is reported with its own exception; a command is stored exactly when the call returned and serialising did not raise; it is a statement exactly when the call returned on an eligible receiver with `varname` |
| `Utilities.MissingVarnameReported` | pyvista_gui/utilities.py:64-73 | a call that returned on an eligible receiver without `varname` is reported as `AttributeError("varname")` |
| `Utilities.ReplayRecordsEligible` | pyvista_gui/utilities.py:64-66 | after calls that all returned on receivers with `varname`, the log keeps its old entries as a prefix and gains exactly one entry per eligible call |
| `Utilities.ReplayAppendsStatements` | pyvista_gui/utilities.py:63-73 | after any run of calls, the log is the old log followed by the statements of the calls that returned and serialised, in completion order; failed calls, ineligible calls and calls whose serialising raised add nothing |
| `Utilities.ReplayIgnoresFailures` | pyvista_gui/utilities.py:67-73 | calls that all raised leave the log unchanged |
| `Utilities.Receiver.ProtectedCall` | pyvista_gui/utilities.py:62-73 | on a recorded step the log gains the command (or nothing for `None`) and no error is shown; on a failed (`Fail`) step no command is stored, the exception is appended to `exceptions` when the receiver has one, and `show_error` is called exactly once |
| `Session.Gui.constructor` | pyvista_gui/gui.py:77-78 | a new window records commands and does not hold |
| `Session.Gui.ShowError` | pyvista_gui/utilities.py:73 | one call passes exactly one notification to `show_error` and changes nothing else |
| `Session.Gui.Execute` | pyvista_gui/console.py:100-112 | the console receives exactly the given statement, recorded with `hold` and `save_commands` as they stood at hand-off; afterwards `save_commands` is true again and `hold` is what the run left |
| `GuiData.Stored` | pyvista_gui/data.py:107-110 | `None` leaves the log as it was; a command, even an empty one, is appended after all old entries |
| `GuiData.FirstIndex` | pyvista_gui/data.py:121-122 | the index found holds the element, and no earlier index does |
| `GuiData.RemoveFirst` | pyvista_gui/data.py:119-122 | an absent element changes nothing; otherwise exactly its first occurrence is deleted and the others keep their order; the multiset loses one copy |
| `GuiData.Data.constructor` | pyvista_gui/data.py:45-56 | a new `Data` has no meshes, an empty log and `varcount` equal to `{"Mesh": 0}` |
| `GuiData.Data.ResetStoredCommands` | pyvista_gui/data.py:58-60 | the log is empty whatever it held; meshes and counters are unchanged |
| `GuiData.Data.StoreCommand` | pyvista_gui/data.py:107-110 | the log becomes `Stored(old log, command)`; nothing else changes |
| `GuiData.Data.Items` | pyvista_gui/data.py:66-70 | returns the meshes in order and changes nothing |
| `GuiData.Data.Remove` | pyvista_gui/data.py:119-122 | the meshes become `RemoveFirst(old meshes, item)`; the log is unchanged |
| `GuiData.SlashedAll` | pyvista_gui/data.py:102-104 | one entry per command, each with every `\` replaced by `/` and nothing else changed |
| `GuiData.BodySnoc` | pyvista_gui/data.py:102-105 | writing one more command adds exactly that command's line at the end |
| `GuiData.WriteScript` | pyvista_gui/data.py:100-105 | the text written is the header, a newline, then the body of the log |
| `GuiData.ScriptReadBack` | pyvista_gui/data.py:81-105 | a saved script, read back line by line, gives the five header lines naming both versions, one blank line, then each command in log order with `\` turned into `/`, when no command or version spans several lines |
| `GuiData.ImportBlock` | pyvista_gui/data.py:95-96 | one `import m` line per module, the last module's first |
| `GuiData.InferImports` | pyvista_gui/data.py:87-93 | the modules found have no duplicates, and are exactly the candidates that some command mentions as `m.`; no candidates gives no modules |
| `GuiData.Data.PrependImports` | pyvista_gui/data.py:95-96 | the log becomes the import block followed by the old log |
| `GuiData.Data.SaveCommands` | pyvista_gui/data.py:79-105 | with the empty candidate list the log is left unchanged, and the text returned is the script of that log |
| `GuiData.Data.LoadScript` | pyvista_gui/data.py:150-174 | a missing file calls `show_error` once and changes neither `hold`, `save_commands` nor the log; for an existing one the console receives the run statement while `hold` is set and `save_commands` is cleared, `save_commands` is true again afterwards, and the whole file text is appended as one log entry |
| `Strings.Slashed` | pyvista_gui/data.py:104 | same length, no `\` left, every other character unchanged |
| `Strings.SplitJoin` | pyvista_gui/utilities.py:50 | arguments joined with ", " split back into the same arguments when none holds a comma |
| `Dialogs.WithFixed` | pyvista_gui/dialogs.py:216-220 | fixed becomes 1000·v; the sliders end up ordered; nocheck keeps its value or takes fixed's, and keeps it when it was already at most 1000·v |
| `Dialogs.WithNocheck` | pyvista_gui/dialogs.py:222-226 | nocheck becomes 1000·v; the sliders end up ordered; fixed keeps its value or takes nocheck's, and keeps it when it was already at least 1000·v |
| `Dialogs.WithFixedMovesLeast` | pyvista_gui/dialogs.py:216-220 | no ordered pair with the new fixed value moves nocheck less |
| `Dialogs.WithNocheckMovesLeast` | pyvista_gui/dialogs.py:222-226 | no ordered pair with the new nocheck value moves fixed less |
| `Dialogs.ApplyOrdered` | pyvista_gui/dialogs.py:216-226 | after any non-empty run of setter calls, from any start, the sliders are ordered and the last setter's slider holds its value |
| `Dialogs.SlidersGroup.constructor` | pyvista_gui/dialogs.py:188-210 | both sliders start at 0 with range 0 to 99 and enabled (Qt's QSlider defaults) |
| `Dialogs.SlidersGroup.SetEnabled` | pyvista_gui/dialogs.py:212-214 | both sliders get the same enabled flag; nothing else changes |
| `Dialogs.SlidersGroup.SetFixedValue` | pyvista_gui/dialogs.py:216-220 | the positions become `WithFixed(old positions, v)` and are ordered; ranges and flags are unchanged |
| `Dialogs.SlidersGroup.SetNocheckValue` | pyvista_gui/dialogs.py:222-226 | the positions become `WithNocheck(old positions, v)` and are ordered; ranges and flags are unchanged |
| `Dialogs.SlidersGroup.SetMinimum` | pyvista_gui/dialogs.py:228-230 | both minimums become 1000·v; nothing else changes |
| `Dialogs.SlidersGroup.SetMaximum` | pyvista_gui/dialogs.py:232-234 | both maximums become 1000·v; nothing else changes |

## Left out

- Threads in `protected_thread` and `threaded`: starting the worker, the `hold` polling loop with `processEvents` and `sleep`, and thread registration. These are concurrency and event-loop plumbing. The model runs the success/failure step once the call's outcome is known.
- Traceback printing and `log.error` / `LOG.info` calls: they have no effect on state.
- The Python 2 `basestring` shim: an argument is either a string (`Text`) or not (`Value`).
- pyvista's own reflection (`hasattr(pyvista, …)`, `eval`): replaced by the `Registry` map. A `class_name` that is not a string is not modelled.
- File I/O: `open`/`write` in `_save_commands` (the text is returned instead), `os.path.isfile` and reading the file in `load_script` (both are arguments).
- `load_script`'s three `textedit_commands.add_command` calls and the file dialogs (`save_commands_dialog`, `load_script_dialog`): widget updates only.
- `Data.reset`: it calls `remove()` on every item and clears the plotter and widgets. Those are objects this model does not include. Its log reset is `ResetStoredCommands`.
- `Data.list_commands`: it only prints.
- `Data.load_mesh`: it only raises `NotImplementedError` on a worker thread.
- `Data.load_script_dlg`, `Data.parent`'s other widgets and `Data.varcount` updates elsewhere are not part of this model.
- `_save_commands`' `if command is not None` test: the log holds only strings, because `store_command` never stores `None`.
- The rest of `pyvista_gui/dialogs.py` (`ColorDialog`, `ColorBox`, `FileDialog`, `LoadMeshDialog`): Qt dialogs and float RGB scaling.
- Qt's clamping of a slider value to its range and its `valueChanged` signals. They live in Qt, not in this code. `SlidersGroup` positions are therefore plain integers that may lie outside the range.
- Dialogs.SlidersGroup.SetFixedValue, Dialogs.SlidersGroup.SetNocheckValue, Dialogs.SlidersGroup.SetMinimum, Dialogs.SlidersGroup.SetMaximum: the 32-bit `int` limit of Qt slider values is not modelled. `value * 1000` can exceed it, and values are unbounded integers here.
- Session.Gui.ShowError: the main window `GUIWindow` (pyvista_gui/gui.py:64) defines no `show_error`; it offers `error_dialog` and `errorsignal` (gui.py:68, 144, 165). As written, the calls at utilities.py:73 and data.py:159 therefore raise `AttributeError`, which escapes the worker thread or `load_script`. The model assumes a parent that provides `show_error` and records each call to it.
- Session.Gui.Execute: what the executed statement does is not modelled, except for the value it leaves in `hold` (an argument). A script that completes runs its trailing `gui.hold = False`; one that raises leaves `hold` set. `GuiData.Data.LoadScript`'s postcondition `commands == old(commands) + [text]` rests on this: the model lets the executed script record nothing. In the Python code a loaded script that records commands itself adds those entries too, because nothing reads `save_commands`, whatever the comment at pyvista_gui/data.py:162 intends.
- GuiData.InferImports: the order of `modules` is not stated. The contract gives the set of modules found and that none repeats. The loop adds a module when the first command that mentions it is reached, and candidates mentioned by the same command keep their candidate order.
- `pyvista_gui/widgets.py`, `gui.py`, `console.py`, `options.py`, `setup.py` and `__main__.py`: windowing, the embedded console, JSON option persistence and packaging.
