/** The session's data holder (`Data` in pyvista_gui/data.py): the list of loaded
    meshes, the log of recorded commands, and the rendering of that log as a
    stand-alone script. */
module GuiData {
  import opened Wrappers
  import opened Strings
  import Session

  /** The candidate modules the import-inference pass looks for; the Python code's list is empty. */
  const TestModules: seq<string> := []

  const Quotes := "\"\"\""
  const Title := "Auto-generated script for PyVista-GUI"
  const PyvistaPrefix := "Using pyvista     v"
  const GuiPrefix := "      pyvista_gui v"

  // ---------------------------------------------------------------------------
  // The command log as a value

  /** The log after `store_command(command)`: a command is appended at the end, `None` is dropped. */
  function Stored(log: seq<string>, command: Option<string>): (r: seq<string>)
    ensures command.None? ==> r == log
    ensures command.Some? ==> |r| == |log| + 1 && r[..|log|] == log && r[|log|] == command.value
  {
    if command.Some? then log + [command.value] else log
  }

  /** Index of the first occurrence of `x` in `s`, as Python's `list.index`. */
  function FirstIndex<M(==)>(s: seq<M>, x: M): (k: nat)
    requires x in s
    ensures k < |s| && s[k] == x
    ensures forall j :: 0 <= j < k ==> s[j] != x
  {
    if s[0] == x then 0 else 1 + FirstIndex(s[1..], x)
  }

  /** Python's `list.remove(x)` when `x` is present, and no change otherwise: the first
      occurrence of `x` is deleted and the other elements keep their order. */
  function RemoveFirst<M(==)>(s: seq<M>, x: M): (r: seq<M>)
    ensures x !in s ==> r == s
    ensures x in s ==> exists k :: 0 <= k < |s| && s[k] == x && x !in s[..k] && r == s[..k] + s[k + 1..]
    ensures multiset(r) == multiset(s) - multiset{x}
    ensures |r| == if x in s then |s| - 1 else |s|
  {
    if x in s then
      var k := FirstIndex(s, x);
      assert x !in s[..k];
      assert s == s[..k] + [s[k]] + s[k + 1..];
      s[..k] + s[k + 1..]
    else
      assert multiset(s)[x] == 0;
      s
  }

  // ---------------------------------------------------------------------------
  // The generated script

  /** The lines of the triple-quoted header, which names both version strings. */
  function HeaderLines(pyvistaVersion: string, guiVersion: string): seq<string>
  {
    [Quotes, Title, PyvistaPrefix + pyvistaVersion, GuiPrefix + guiVersion, Quotes]
  }

  /** The header text: each of its lines followed by '\n'. */
  function Header(pyvistaVersion: string, guiVersion: string): string
  {
    Block(HeaderLines(pyvistaVersion, guiVersion))
  }

  /** One line per command, in log order, backslashes turned into forward slashes. */
  function Body(commands: seq<string>): string
  {
    Block(SlashedAll(commands))
  }

  /** The whole file `_save_commands` writes: header, a blank line, the body. */
  function Script(pyvistaVersion: string, guiVersion: string, commands: seq<string>): string
  {
    Header(pyvistaVersion, guiVersion) + "\n" + Body(commands)
  }

  /** The commands as they appear in the file. */
  function SlashedAll(commands: seq<string>): (r: seq<string>)
    ensures |r| == |commands|
    ensures forall i :: 0 <= i < |commands| ==> r[i] == Slashed(commands[i])
  {
    seq(|commands|, i requires 0 <= i < |commands| => Slashed(commands[i]))
  }

  /** Writing one more command extends the body by exactly that command's line. */
  lemma BodySnoc(commands: seq<string>, c: string)
    ensures Body(commands + [c]) == Body(commands) + Slashed(c) + "\n"
  {
    assert SlashedAll(commands + [c]) == SlashedAll(commands) + [Slashed(c)];
    BlockAppend(SlashedAll(commands), [Slashed(c)]);
    assert Block([Slashed(c)]) == Slashed(c) + "\n" + Block([]);
  }

  lemma SlashedKeepsNewlines(c: string)
    requires '\n' !in c
    ensures '\n' !in Slashed(c)
  {
    var r := Slashed(c);
    forall i | 0 <= i < |r| ensures r[i] != '\n' {
      assert c[i] != '\n';
    }
  }

  lemma NoNewlineJoined(a: string, b: string)
    requires '\n' !in a && '\n' !in b
    ensures '\n' !in a + b
  {
  }

  /** The header followed by the blank line is the block of its five lines and an empty one. */
  lemma HeaderBlock(pyvistaVersion: string, guiVersion: string)
    ensures Header(pyvistaVersion, guiVersion) + "\n" == Block(HeaderLines(pyvistaVersion, guiVersion) + [""])
  {
    BlockAppend(HeaderLines(pyvistaVersion, guiVersion), [""]);
    assert Block([""]) == "" + "\n" + Block([]);
  }

  /** None of the header lines, nor the blank line after them, holds a '\n'. */
  lemma HeaderLinesSingle(pyvistaVersion: string, guiVersion: string)
    requires '\n' !in pyvistaVersion && '\n' !in guiVersion
    ensures var head := HeaderLines(pyvistaVersion, guiVersion) + [""];
            forall k :: 0 <= k < |head| ==> '\n' !in head[k]
  {
    NoNewlineJoined(PyvistaPrefix, pyvistaVersion);
    NoNewlineJoined(GuiPrefix, guiVersion);
  }

  /** None of the written command lines holds a '\n' when no command does. */
  lemma SlashedAllSingle(commands: seq<string>)
    requires forall k :: 0 <= k < |commands| ==> '\n' !in commands[k]
    ensures forall k :: 0 <= k < |commands| ==> '\n' !in SlashedAll(commands)[k]
  {
    forall k | 0 <= k < |commands| ensures '\n' !in SlashedAll(commands)[k] {
      SlashedKeepsNewlines(commands[k]);
    }
  }

  /** Re-reading a saved script: the five header lines, one blank line, then one line
      per logged command in log order with backslashes turned into forward slashes. */
  lemma ScriptReadBack(pyvistaVersion: string, guiVersion: string, commands: seq<string>)
    requires '\n' !in pyvistaVersion && '\n' !in guiVersion
    requires forall k :: 0 <= k < |commands| ==> '\n' !in commands[k]
    ensures Lines(Script(pyvistaVersion, guiVersion, commands))
         == HeaderLines(pyvistaVersion, guiVersion) + [""] + SlashedAll(commands)
  {
    var head := HeaderLines(pyvistaVersion, guiVersion) + [""];
    var body := SlashedAll(commands);
    HeaderBlock(pyvistaVersion, guiVersion);
    BlockAppend(head, body);
    HeaderLinesSingle(pyvistaVersion, guiVersion);
    SlashedAllSingle(commands);
    forall k | 0 <= k < |head + body| ensures '\n' !in (head + body)[k] {
      if k >= |head| {
        assert (head + body)[k] == body[k - |head|];
      }
    }
    BlockLines(head + body);
  }

  /** The lines `insert(0, "import m")` leaves at the front after running over `modules`:
      the last module's import comes first. */
  function ImportBlock(modules: seq<string>): (r: seq<string>)
    ensures |r| == |modules|
    ensures forall i :: 0 <= i < |modules| ==> r[i] == "import " + modules[|modules| - 1 - i]
  {
    if |modules| == 0 then []
    else ["import " + modules[|modules| - 1]] + ImportBlock(modules[..|modules| - 1])
  }

  /** Some command mentions `m + "."`. */
  predicate Mentioned(commands: seq<string>, m: string)
  {
    exists c | c in commands :: Occurs(m + ".", c)
  }

  predicate NoDuplicates(s: seq<string>)
  {
    forall i, j | 0 <= i < j < |s| :: s[i] != s[j]
  }

  /** The import-inference pass of `_save_commands`: each candidate module that some
      command mentions as `m.`, listed once. */
  method InferImports(commands: seq<string>, candidates: seq<string>) returns (modules: seq<string>)
    ensures NoDuplicates(modules)
    ensures candidates == [] ==> modules == []
    ensures forall m :: m in modules <==> m in candidates && Mentioned(commands, m)
  {
    modules := [];
    var i := 0;
    while i < |commands|
      invariant 0 <= i <= |commands|
      invariant candidates == [] ==> modules == []
      invariant NoDuplicates(modules)
      invariant forall m :: m in modules <==> m in candidates && Mentioned(commands[..i], m)
    {
      var command := commands[i];
      var j := 0;
      while j < |candidates|
        invariant 0 <= j <= |candidates|
        invariant candidates == [] ==> modules == []
        invariant NoDuplicates(modules)
        invariant forall m :: m in modules <==>
          m in candidates && (Mentioned(commands[..i], m) || (m in candidates[..j] && Occurs(m + ".", command)))
      {
        var candidate := candidates[j];
        assert candidates[..j + 1] == candidates[..j] + [candidate];
        if Occurs(candidate + ".", command) {
          if candidate !in modules {
            modules := modules + [candidate];
          }
        }
        j := j + 1;
      }
      assert candidates[..j] == candidates;
      assert commands[..i + 1] == commands[..i] + [command];
      forall m ensures Mentioned(commands[..i + 1], m) <==> Mentioned(commands[..i], m) || Occurs(m + ".", command) {
        if Mentioned(commands[..i + 1], m) {
          var c :| c in commands[..i + 1] && Occurs(m + ".", c);
          assert c in commands[..i] || c == command;
        }
        if Mentioned(commands[..i], m) {
          var c :| c in commands[..i] && Occurs(m + ".", c);
          assert c in commands[..i + 1];
        }
        if Occurs(m + ".", command) {
          assert command in commands[..i + 1];
        }
      }
      i := i + 1;
    }
    assert commands[..i] == commands;
  }

  /** Writing the command at index `i` extends the body of the first `i` commands by its line. */
  lemma BodyPrefixStep(prefix: string, commands: seq<string>, i: nat)
    requires i < |commands|
    ensures prefix + Body(commands[..i]) + (Slashed(commands[i]) + "\n") == prefix + Body(commands[..i + 1])
  {
    assert commands[..i + 1] == commands[..i] + [commands[i]];
    BodySnoc(commands[..i], commands[i]);
  }

  /** The writing loop of `_save_commands`: the header, a blank line, then each command
      with its backslashes replaced, one per line. */
  method WriteScript(header: string, commands: seq<string>) returns (text: string)
    ensures text == header + "\n" + Body(commands)
  {
    var prefix := header + "\n";
    text := prefix;
    assert Body(commands[..0]) == "" by {
      assert commands[..0] == [];
    }
    var i := 0;
    while i < |commands|
      invariant 0 <= i <= |commands|
      invariant text == prefix + Body(commands[..i])
    {
      var line := Slashed(commands[i]) + "\n";
      BodyPrefixStep(prefix, commands, i);
      text := text + line;
      i := i + 1;
    }
    assert commands[..i] == commands;
  }

  /** The message `load_script` shows for a missing file. */
  function NotFoundMessage(filename: string): string
  {
    "Unable to find python script file \"" + filename + "\"\n"
    + "Try using absolute paths or loading it from " + "the GUI."
  }

  /** The statement `load_script` hands to the console: run the file, then clear `hold`
      and set `save_commands` again. */
  function RunScriptStatement(filename: string): string
  {
    "exec(open(\"" + filename + "\").read()); gui.hold = False" + ";gui.save_commands = True"
  }

  // ---------------------------------------------------------------------------
  // The object

  class Data<M(==)> {
    const parent: Session.Gui
    /** The loaded meshes. */
    var meshes: seq<M>
    /** The recorded commands, oldest first. */
    var commands: seq<string>
    /** Per-type counters used to name new variables. */
    var varcount: map<string, int>

    constructor (parent: Session.Gui)
      ensures this.parent == parent
      ensures meshes == [] && commands == [] && varcount == map["Mesh" := 0]
    {
      this.parent := parent;
      meshes := [];
      commands := [];
      varcount := map["Mesh" := 0];
    }

    method ResetStoredCommands()
      modifies this
      ensures commands == []
      ensures meshes == old(meshes) && varcount == old(varcount)
    {
      commands := [];
    }

    method StoreCommand(command: Option<string>)
      modifies this
      ensures commands == Stored(old(commands), command)
      ensures meshes == old(meshes) && varcount == old(varcount)
    {
      if command.Some? {
        commands := commands + [command.value];
      }
    }

    /** A fresh list holding the meshes; reading it changes nothing. */
    method Items() returns (items: seq<M>)
      ensures items == meshes
    {
      items := [];
      items := items + meshes;
    }

    method Remove(item: M)
      modifies this
      ensures meshes == RemoveFirst(old(meshes), item)
      ensures commands == old(commands) && varcount == old(varcount)
    {
      if item in meshes {
        meshes := RemoveFirst(meshes, item);
      }
    }

    /** `commands.insert(0, "import m")` for each module in turn. */
    method PrependImports(modules: seq<string>)
      modifies this
      ensures commands == ImportBlock(modules) + old(commands)
      ensures meshes == old(meshes) && varcount == old(varcount)
    {
      var k := 0;
      while k < |modules|
        invariant 0 <= k <= |modules|
        invariant commands == ImportBlock(modules[..k]) + old(commands)
        invariant meshes == old(meshes) && varcount == old(varcount)
      {
        assert modules[..k + 1][..k] == modules[..k];
        commands := ["import " + modules[k]] + commands;
        k := k + 1;
      }
      assert modules[..k] == modules;
    }

    /** `_save_commands` with the file write replaced by returning the file's text.
        Since no candidate module exists, the log itself is left as it was. */
    method SaveCommands(pyvistaVersion: string, guiVersion: string) returns (text: string)
      modifies this
      ensures commands == old(commands)
      ensures text == Script(pyvistaVersion, guiVersion, commands)
      ensures meshes == old(meshes) && varcount == old(varcount)
    {
      var header := Header(pyvistaVersion, guiVersion);
      var modules := InferImports(commands, TestModules);
      assert modules == [];
      PrependImports(modules);
      text := WriteScript(header, commands);
    }

    /** `load_script` given whether the file exists, its text, and the value the console's
        run of the script leaves in `hold`. */
    method LoadScript(filename: string, isFile: bool, text: string, holdAfter: bool)
      modifies this, parent
      ensures meshes == old(meshes) && varcount == old(varcount)
      ensures !isFile ==>
        && commands == old(commands)
        && parent.hold == old(parent.hold) && parent.saveCommands == old(parent.saveCommands)
        && parent.executed == old(parent.executed)
        && parent.errors == old(parent.errors) + [Session.MessageReport(NotFoundMessage(filename))]
      ensures isFile ==>
        && parent.executed == old(parent.executed) + [Session.Handoff(RunScriptStatement(filename), true, false)]
        && parent.saveCommands && parent.hold == holdAfter
        && parent.errors == old(parent.errors)
        && commands == old(commands) + [text]
    {
      if !isFile {
        parent.ShowError(Session.MessageReport(NotFoundMessage(filename)));
        return;
      }
      parent.saveCommands := false;
      parent.hold := true;
      parent.Execute(RunScriptStatement(filename), holdAfter);
      StoreCommand(Some(text));
    }
  }
}
