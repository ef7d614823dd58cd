/** The call serialiser (`build_command`) and the success/failure step that
    `protected_thread` runs inside its worker thread (`protected_fn`). */
module Utilities {
  import opened Wrappers
  import opened Strings
  import opened Session
  import GuiData

  /** What a receiver exposes: its `class_name` and its `varname`, each possibly missing. */
  datatype Attrs = Attrs(className: Option<string>, varname: Option<string>)

  /** The pyvista module as seen by `hasattr`: each attribute name that exists,
      with the names of that attribute's own attributes (its methods). */
  type Registry = map<string, set<string>>

  /** A positional argument: a string, or any other value, whose `str()` is given by a
      rendering function. */
  datatype Arg<V> = Text(text: string) | Value(value: V)

  /** Why the wrapped call did or did not come back. */
  datatype Outcome = Returned | Failed(exception: Exception)

  /** What `protected_fn` does once the call is over: store a command (or `None`), or
      report an exception. */
  datatype Step = Record(command: Option<string>) | Fail(exception: Exception)

  // ---------------------------------------------------------------------------
  // build_command

  /** The method name with one leading underscore removed. */
  function StripUnderscore(name: string): (r: string)
    requires |name| > 0
    ensures name == r || name == "_" + r
    ensures name[0] == '_' <==> |r| < |name|
  {
    if name[0] == '_' then name[1..] else name
  }

  /** The receiver has a `class_name`, pyvista has that class, and the class has the
      method under its stripped name. */
  predicate Eligible(obj: Attrs, registry: Registry, name: string)
  {
    && |name| > 0
    && obj.className.Some?
    && obj.className.value in registry
    && StripUnderscore(name) in registry[obj.className.value]
  }

  /** `args[1:]`: the arguments after the receiver. */
  function Positional<V>(args: seq<Arg<V>>): seq<Arg<V>>
  {
    if |args| == 0 then [] else args[1..]
  }

  /** Strings are put in double quotes, without escaping; other values use `str()`. */
  function RenderArg<V>(arg: Arg<V>, render: V -> string): string
  {
    match arg
    case Text(s) => "\"" + s + "\""
    case Value(v) => render(v)
  }

  /** The `str_args` list: each argument rendered, in the original order. */
  function RenderArgs<V>(args: seq<Arg<V>>, render: V -> string): (r: seq<string>)
    ensures |r| == |args|
    ensures forall i :: 0 <= i < |args| ==> r[i] == RenderArg(args[i], render)
  {
    if |args| == 0 then [] else [RenderArg(args[0], render)] + RenderArgs(args[1..], render)
  }

  /** `build_command(obj, func, *args, **kwargs)`. `Ok(None)` is the Python code's bare
      `return`; an `Err` is an exception the Python code lets escape. */
  function BuildCommand<V>(obj: Attrs, registry: Registry, name: string, args: seq<Arg<V>>,
                           kwargs: map<string, Arg<V>>, render: V -> string): (r: Result<Option<string>, Exception>)
    ensures r == Err(IndexError) <==> name == ""
    ensures r == Ok(None) <==> name != "" && !Eligible(obj, registry, name)
    ensures r == Err(AttributeError("varname")) <==> Eligible(obj, registry, name) && obj.varname.None?
    ensures r.Ok? && r.value.Some? <==> Eligible(obj, registry, name) && obj.varname.Some?
  {
    if name == "" then Err(IndexError)
    else
      var funcName := StripUnderscore(name);
      if obj.className.None? then Ok(None)
      else if obj.className.value !in registry then Ok(None)
      else if funcName !in registry[obj.className.value] then Ok(None)
      else if obj.varname.None? then Err(AttributeError("varname"))
      else
        var strArgs := RenderArgs(Positional(args), render);
        Ok(Some(obj.varname.value + "." + funcName + "(" + Join(", ", strArgs) + ")"))
  }

  /** Reading a recorded statement back: it starts with `varname.name(`, ends with `)`,
      and the text between splits at ", " into the rendered arguments after the receiver,
      in their original order, as long as no rendered argument holds a comma. */
  lemma ArgumentsReadBack<V>(obj: Attrs, registry: Registry, name: string, args: seq<Arg<V>>,
                             kwargs: map<string, Arg<V>>, render: V -> string)
    requires Eligible(obj, registry, name) && obj.varname.Some?
    requires |args| >= 2
    requires forall k :: 1 <= k < |args| ==> ',' !in RenderArg(args[k], render)
    ensures var s := BuildCommand(obj, registry, name, args, kwargs, render).value.value;
            var head := obj.varname.value + "." + StripUnderscore(name) + "(";
            && |head| < |s| && s[..|head|] == head && s[|s| - 1] == ')'
            && SplitArgs(s[|head|..|s| - 1]) == RenderArgs(args[1..], render)
  {
    var s := BuildCommand(obj, registry, name, args, kwargs, render).value.value;
    var head := obj.varname.value + "." + StripUnderscore(name) + "(";
    var parts := RenderArgs(args[1..], render);
    var inner := Join(", ", parts);
    assert s == head + inner + ")";
    assert s[|head|..|s| - 1] == inner;
    forall k | 0 <= k < |parts| ensures ',' !in parts[k] {
      assert parts[k] == RenderArg(args[k + 1], render);
    }
    SplitJoin(parts);
  }

  /** A call with nothing after the receiver is recorded as `varname.name()`. */
  lemma NoArguments<V>(obj: Attrs, registry: Registry, name: string, args: seq<Arg<V>>,
                       kwargs: map<string, Arg<V>>, render: V -> string)
    requires Eligible(obj, registry, name) && obj.varname.Some?
    requires |args| <= 1
    ensures BuildCommand(obj, registry, name, args, kwargs, render)
         == Ok(Some(obj.varname.value + "." + StripUnderscore(name) + "()"))
  {
    assert Positional(args) == [];
    assert Join(", ", RenderArgs(Positional(args), render)) == "";
    var head := obj.varname.value + "." + StripUnderscore(name);
    assert head + "(" + "" + ")" == head + "()";
  }

  /** The receiver in first position never shows in the statement. */
  lemma ReceiverIgnored<V>(obj: Attrs, registry: Registry, name: string, self1: Arg<V>, self2: Arg<V>,
                           rest: seq<Arg<V>>, kwargs: map<string, Arg<V>>, render: V -> string)
    ensures BuildCommand(obj, registry, name, [self1] + rest, kwargs, render)
         == BuildCommand(obj, registry, name, [self2] + rest, kwargs, render)
  {
    assert Positional([self1] + rest) == rest == Positional([self2] + rest);
  }

  /** Keyword arguments never change the outcome. */
  lemma KeywordsIgnored<V>(obj: Attrs, registry: Registry, name: string, args: seq<Arg<V>>,
                           kwargs1: map<string, Arg<V>>, kwargs2: map<string, Arg<V>>, render: V -> string)
    ensures BuildCommand(obj, registry, name, args, kwargs1, render)
         == BuildCommand(obj, registry, name, args, kwargs2, render)
  {
  }

  /** A method `_m` is looked up and recorded exactly as its public alias `m`. */
  lemma PrivateAlias<V>(obj: Attrs, registry: Registry, name: string, args: seq<Arg<V>>,
                        kwargs: map<string, Arg<V>>, render: V -> string)
    requires |name| > 0 && name[0] != '_'
    ensures BuildCommand(obj, registry, "_" + name, args, kwargs, render)
         == BuildCommand(obj, registry, name, args, kwargs, render)
  {
    assert ("_" + name)[1..] == name;
  }

  /** Only one underscore goes: `__m` is looked up and recorded as `_m`. */
  lemma OneUnderscoreOnly(name: string)
    ensures StripUnderscore("__" + name) == "_" + name
  {
    assert ("__" + name)[1..] == "_" + name;
  }

  /** `m.add(3)` on a receiver named `mesh1` of class `Sphere` that has `add`. */
  lemma SphereAddRecorded(receiver: int, render: int -> string)
    requires render(3) == "3"
    ensures BuildCommand(Attrs(Some("Sphere"), Some("mesh1")), map["Sphere" := {"add"}], "add",
                         [Value(receiver), Value(3)], map[], render)
         == Ok(Some("mesh1.add(3)"))
  {
    var args: seq<Arg<int>> := [Value(receiver), Value(3)];
    assert Positional(args) == [Value(3)];
    assert RenderArgs(Positional(args), render) == ["3"];
    assert Join(", ", ["3"]) == "3";
    assert StripUnderscore("add") == "add";
    assert "mesh1" + "." + "add" + "(" + "3" + ")" == "mesh1.add(3)";
  }

  /** The same call on a `Sphere` that has no `add` records nothing. */
  lemma SphereWithoutAddIgnored(receiver: int, render: int -> string)
    ensures BuildCommand(Attrs(Some("Sphere"), Some("mesh1")), map["Sphere" := {"clip"}], "add",
                         [Value(receiver), Value(3)], map[], render)
         == Ok(None)
  {
    assert StripUnderscore("add") == "add";
  }

  // ---------------------------------------------------------------------------
  // protected_fn

  /** The bookkeeping after the wrapped call: on return, serialise it; any exception,
      from the call or from serialising, is reported instead. */
  function ProtectedStep<V>(outcome: Outcome, obj: Attrs, registry: Registry, name: string,
                            args: seq<Arg<V>>, kwargs: map<string, Arg<V>>, render: V -> string): (r: Step)
    ensures outcome.Failed? ==> r == Fail(outcome.exception)
    ensures r.Record? <==> outcome.Returned? && name != "" && (Eligible(obj, registry, name) ==> obj.varname.Some?)
    ensures r.Record? && r.command.Some? <==> outcome.Returned? && Eligible(obj, registry, name) && obj.varname.Some?
  {
    if outcome.Failed? then Fail(outcome.exception)
    else
      match BuildCommand(obj, registry, name, args, kwargs, render)
      case Ok(command) => Record(command)
      case Err(e) => Fail(e)
  }

  /** A call that succeeded on an eligible receiver without `varname` still goes down the
      failure path, with the `AttributeError` of reading `varname`. */
  lemma MissingVarnameReported<V>(obj: Attrs, registry: Registry, name: string, args: seq<Arg<V>>,
                                  kwargs: map<string, Arg<V>>, render: V -> string)
    requires Eligible(obj, registry, name) && obj.varname.None?
    ensures ProtectedStep(Returned, obj, registry, name, args, kwargs, render) == Fail(AttributeError("varname"))
  {
  }

  /** The log after one step. */
  function Logged(log: seq<string>, step: Step): seq<string>
  {
    if step.Record? then GuiData.Stored(log, step.command) else log
  }

  /** One tracked call: its receiver, method name, arguments and outcome. */
  datatype Call<V> = Call(obj: Attrs, name: string, args: seq<Arg<V>>, kwargs: map<string, Arg<V>>, outcome: Outcome)

  function StepOf<V>(call: Call<V>, registry: Registry, render: V -> string): Step
  {
    ProtectedStep(call.outcome, call.obj, registry, call.name, call.args, call.kwargs, render)
  }

  /** The log after the calls complete, in completion order. */
  function Replay<V>(log: seq<string>, registry: Registry, calls: seq<Call<V>>, render: V -> string): seq<string>
    decreases |calls|
  {
    if |calls| == 0 then log
    else Replay(Logged(log, StepOf(calls[0], registry, render)), registry, calls[1..], render)
  }

  /** How many of the calls are eligible for recording. */
  function EligibleCount<V>(registry: Registry, calls: seq<Call<V>>): nat
    decreases |calls|
  {
    if |calls| == 0 then 0
    else (if Eligible(calls[0].obj, registry, calls[0].name) then 1 else 0) + EligibleCount(registry, calls[1..])
  }

  /** The statement one call leaves in the log: its serialisation, when it returned and
      `build_command` gave a statement, and nothing otherwise. */
  function StatementOf<V>(registry: Registry, c: Call<V>, render: V -> string): seq<string>
  {
    var built := BuildCommand(c.obj, registry, c.name, c.args, c.kwargs, render);
    if c.outcome.Returned? && built.Ok? && built.value.Some? then [built.value.value] else []
  }

  /** The statements the calls serialise to, in order. */
  function Statements<V>(registry: Registry, calls: seq<Call<V>>, render: V -> string): seq<string>
    decreases |calls|
  {
    if |calls| == 0 then [] else StatementOf(registry, calls[0], render) + Statements(registry, calls[1..], render)
  }

  /** One call adds to the log exactly its own statement, if it has one. */
  lemma LoggedStep<V>(log: seq<string>, registry: Registry, c: Call<V>, render: V -> string)
    ensures Logged(log, StepOf(c, registry, render)) == log + StatementOf(registry, c, render)
  {
  }

  /** The log after any run of calls is the old log followed by the statements of the
      calls that returned and serialised, in completion order; failed calls, ineligible
      calls and calls whose serialising raised add nothing. */
  lemma {:induction false} ReplayAppendsStatements<V>(log: seq<string>, registry: Registry, calls: seq<Call<V>>,
                                                      render: V -> string)
    ensures Replay(log, registry, calls, render) == log + Statements(registry, calls, render)
    decreases |calls|
  {
    if |calls| > 0 {
      var next := Logged(log, StepOf(calls[0], registry, render));
      var first := StatementOf(registry, calls[0], render);
      var rest := Statements(registry, calls[1..], render);
      assert Replay(log, registry, calls, render) == Replay(next, registry, calls[1..], render);
      assert Statements(registry, calls, render) == first + rest;
      LoggedStep(log, registry, calls[0], render);
      ReplayAppendsStatements(next, registry, calls[1..], render);
      assert next + rest == log + (first + rest);
    }
  }

  /** After a run of calls that all returned, on receivers that have a `varname`, the log
      holds what it held before followed by exactly one entry per eligible call. */
  lemma {:induction false} ReplayRecordsEligible<V>(log: seq<string>, registry: Registry, calls: seq<Call<V>>,
                                                    render: V -> string)
    requires forall k :: 0 <= k < |calls| ==> calls[k].outcome.Returned?
    requires forall k :: 0 <= k < |calls| ==> calls[k].obj.varname.Some?
    ensures var after := Replay(log, registry, calls, render);
            |after| == |log| + EligibleCount(registry, calls) && after[..|log|] == log
    decreases |calls|
  {
    if |calls| > 0 {
      var next := Logged(log, StepOf(calls[0], registry, render));
      ReplayRecordsEligible(next, registry, calls[1..], render);
      var after := Replay(next, registry, calls[1..], render);
      assert after[..|log|] == after[..|next|][..|log|];
    }
  }

  /** Calls that all failed leave the log as it was. */
  lemma {:induction false} ReplayIgnoresFailures<V>(log: seq<string>, registry: Registry, calls: seq<Call<V>>,
                                                    render: V -> string)
    requires forall k :: 0 <= k < |calls| ==> calls[k].outcome.Failed?
    ensures Replay(log, registry, calls, render) == log
    decreases |calls|
  {
    if |calls| > 0 {
      ReplayIgnoresFailures(log, registry, calls[1..], render);
    }
  }

  /** The first argument of a protected call: the object whose method is wrapped. */
  class Receiver {
    const parent: Gui
    var attrs: Attrs
    /** The commands this receiver's `store_command` has stored; it stores as
        `Data.store_command` does (`GuiData.Stored`). */
    var commands: seq<string>
    /** `self.exceptions`, when the receiver has that attribute. */
    var exceptions: Option<seq<Exception>>

    constructor (parent: Gui, attrs: Attrs, exceptions: Option<seq<Exception>>)
      ensures this.parent == parent && this.attrs == attrs && this.exceptions == exceptions
      ensures commands == []
    {
      this.parent := parent;
      this.attrs := attrs;
      this.exceptions := exceptions;
      commands := [];
    }

    /** The body of `protected_fn`, given how the wrapped call ended. */
    method ProtectedCall<V>(registry: Registry, name: string, args: seq<Arg<V>>,
                            kwargs: map<string, Arg<V>>, outcome: Outcome, render: V -> string)
      modifies this, parent
      ensures attrs == old(attrs)
      ensures parent.hold == old(parent.hold) && parent.saveCommands == old(parent.saveCommands)
      ensures parent.executed == old(parent.executed)
      ensures var step := ProtectedStep(outcome, old(attrs), registry, name, args, kwargs, render);
              && commands == Logged(old(commands), step)
              && (step.Record? ==> exceptions == old(exceptions) && parent.errors == old(parent.errors))
              && (step.Fail? ==>
                    && exceptions == (if old(exceptions).Some? then Some(old(exceptions).value + [step.exception]) else None)
                    && parent.errors == old(parent.errors) + [ExceptionReport(step.exception)])
    {
      var failure: Option<Exception> := None;
      if outcome.Failed? {
        failure := Some(outcome.exception);
      } else {
        var built := BuildCommand(attrs, registry, name, args, kwargs, render);
        match built
        case Ok(command) => commands := GuiData.Stored(commands, command);
        case Err(e) => failure := Some(e);
      }
      if failure.Some? {
        if exceptions.Some? {
          exceptions := Some(exceptions.value + [failure.value]);
        }
        parent.ShowError(ExceptionReport(failure.value));
      }
    }
  }
}
