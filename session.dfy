/** The main-window state that the core reads and writes through `self.parent`: the
    `hold` and `save_commands` flags, the error surface behind `show_error`, and the
    console that is handed script text to execute. */
module Session {

  /** An exception raised inside a protected call. */
  datatype Exception =
    | IndexError                      // `func_name[0]` on an empty name
    | AttributeError(attribute: string) // reading an attribute the object lacks
    | Raised(message: string)          // whatever the wrapped operation itself raised

  /** One notification passed to `show_error`. */
  datatype Report = ExceptionReport(exception: Exception) | MessageReport(text: string)

  /** A statement handed to the console, with the two flags as they stood at that moment. */
  datatype Handoff = Handoff(statement: string, hold: bool, saveCommands: bool)

  class Gui {
    /** Block the UI thread until the current background call finishes. */
    var hold: bool
    /** Record commands while true. */
    var saveCommands: bool
    /** Every notification passed to `show_error`, oldest first. */
    var errors: seq<Report>
    /** Every statement handed to the console's `execute`, oldest first. */
    var executed: seq<Handoff>

    constructor ()
      ensures saveCommands && !hold
      ensures errors == [] && executed == []
    {
      saveCommands := true;
      hold := false;
      errors := [];
      executed := [];
    }

    /** Passes one error to `show_error`. */
    method ShowError(report: Report)
      modifies this
      ensures errors == old(errors) + [report]
      ensures hold == old(hold) && saveCommands == old(saveCommands) && executed == old(executed)
    {
      errors := errors + [report];
    }

    /** Hands one statement to the console, which runs it and then sets `save_commands`
        again. What the statement itself does is outside this model, except for the value
        `holdAfter` it leaves in `hold`. */
    method Execute(statement: string, holdAfter: bool)
      modifies this
      ensures executed == old(executed) + [Handoff(statement, old(hold), old(saveCommands))]
      ensures saveCommands && hold == holdAfter
      ensures errors == old(errors)
    {
      executed := executed + [Handoff(statement, hold, saveCommands)];
      hold := holdAfter;
      saveCommands := true;
    }
  }
}
