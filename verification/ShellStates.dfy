/** The shell as the program keeps it: an object whose fields are assigned one by one. */
module ShellStates {
  import opened Results
  import opened Text
  import opened CanvasModel
  import opened CanvasEdits
  import opened CanvasCommands
  import opened CanvasText
  import opened ShellModel
  import opened ShellRuns

  /** What the bus dispatches: an action on the canvas, or one on the console. */
  datatype BusAction = OnCanvas(action: Action) | OnConsole(console: ConsoleAction)

  class ShellState {
    const c: Codec
    var consoleVisible: bool
    var sharedConsole: Option<bool>
    var activeCanvas: string
    var canvasDraftSpec: string
    var canvasSavedSpec: string
    var canvasValidation: Option<Fault>
    var canvasStatus: Status
    var canvasDirty: bool

    function View(): Shell
      reads this
    {
      Shell(activeCanvas, canvasDraftSpec, canvasSavedSpec, canvasValidation, canvasStatus, canvasDirty)
    }

    function Console(): ShellModel.Console
      reads this
    {
      ShellModel.Console(consoleVisible, sharedConsole)
    }

    /** The invariant of every run: flags and texts agree, and so do the two console flags. */
    ghost predicate Valid()
      reads this
    {
      Lawful(c) && Consistent(c, View()) && InSync(Console())
    }

    constructor (codec: Codec, console: Option<bool>)
      requires Lawful(codec)
      ensures c == codec && View() == EMPTY && sharedConsole == console && Valid()
    {
      c := codec;
      consoleVisible := console.Some? && console.value;
      sharedConsole := console;
      activeCanvas, canvasDraftSpec, canvasSavedSpec := "", "", "";
      canvasValidation, canvasStatus, canvasDirty := None, Unset, false;
    }

    method ClearActiveCanvas()
      modifies this`activeCanvas, this`canvasDraftSpec, this`canvasSavedSpec, this`canvasValidation, this`canvasStatus, this`canvasDirty
      ensures View() == Cleared()
    {
      activeCanvas := "";
      canvasDraftSpec := "";
      canvasSavedSpec := "";
      canvasValidation := None;
      canvasDirty := false;
      canvasStatus := NoneSelected;
    }

    method SetActiveCanvas(name: string, loaded: Result<string, Fault>) returns (fault: Option<Fault>)
      modifies this`activeCanvas, this`canvasDraftSpec, this`canvasSavedSpec, this`canvasValidation, this`canvasStatus, this`canvasDirty
      ensures Stepped(View(), fault) == SetActive(c, old(View()), name, loaded)
    {
      hide CanonicalText, Trim, Check;
      var trimmed := Trim(name);
      if trimmed == "" {
        ClearActiveCanvas();
        return None;
      }
      if loaded.Err? {
        ClearActiveCanvas();
        canvasStatus := LoadFailed(loaded.error);
        activeCanvas := trimmed;
        canvasValidation := Some(loaded.error);
        return Some(loaded.error);
      }
      activeCanvas := trimmed;
      var normalized := CanonicalText(c, loaded.value);
      if normalized.Err? {
        ClearActiveCanvas();
        canvasStatus := NormalizeFailed(normalized.error);
        return Some(Rejected(normalized.error));
      }
      canvasSavedSpec := normalized.value;
      canvasDraftSpec := normalized.value;
      canvasDirty := false;
      canvasValidation := Check(c, canvasDraftSpec);
      canvasStatus := Loaded;
      return None;
    }

    method SetCanvasDraft(spec: string) returns (fault: Option<Fault>)
      modifies this`activeCanvas, this`canvasDraftSpec, this`canvasSavedSpec, this`canvasValidation, this`canvasStatus, this`canvasDirty
      ensures Stepped(View(), fault) == SetDraft(c, old(View()), spec)
    {
      hide CanonicalText, Check;
      if activeCanvas == "" {
        return Some(NoActiveCanvas);
      }
      var normalized := CanonicalText(c, spec);
      if normalized.Err? {
        return Some(Rejected(normalized.error));
      }
      canvasDraftSpec := normalized.value;
      canvasDirty := canvasDraftSpec != canvasSavedSpec;
      canvasValidation := Check(c, canvasDraftSpec);
      canvasStatus := DraftUpdated;
      return None;
    }

    method ApplyCanvasDraftMutation(edit: Edit) returns (fault: Option<Fault>)
      modifies this`activeCanvas, this`canvasDraftSpec, this`canvasSavedSpec, this`canvasValidation, this`canvasStatus, this`canvasDirty
      ensures Stepped(View(), fault) == EditDraft(c, old(View()), edit)
    {
      hide ParseText, ApplyEdit, Marshal, Check, Trim;
      if activeCanvas == "" {
        return Some(NoActiveCanvas);
      }
      if Trim(canvasDraftSpec) == "" {
        return Some(DraftRequired);
      }
      var draft := ParseText(c, canvasDraftSpec);
      if draft.Err? {
        return Some(Rejected(draft.error));
      }
      var spec := ApplyEdit(draft.value, edit);
      if spec.Err? {
        return Some(Rejected(BadCanvas(spec.error)));
      }
      var text := Marshal(c, spec.value);
      if text.Err? {
        return Some(Rejected(text.error));
      }
      canvasDraftSpec := text.value;
      canvasDirty := canvasDraftSpec != canvasSavedSpec;
      canvasValidation := Check(c, canvasDraftSpec);
      canvasStatus := DraftUpdated;
      return None;
    }

    method RevertCanvasDraft() returns (fault: Option<Fault>)
      modifies this`activeCanvas, this`canvasDraftSpec, this`canvasSavedSpec, this`canvasValidation, this`canvasStatus, this`canvasDirty
      ensures Stepped(View(), fault) == Revert(c, old(View()))
    {
      hide Check;
      if activeCanvas == "" {
        return Some(NoActiveCanvas);
      }
      canvasDraftSpec := canvasSavedSpec;
      canvasDirty := false;
      canvasValidation := Check(c, canvasDraftSpec);
      canvasStatus := DraftReverted;
      return None;
    }

    method CommitCanvasDraft()
      modifies this`activeCanvas, this`canvasDraftSpec, this`canvasSavedSpec, this`canvasValidation, this`canvasStatus, this`canvasDirty
      ensures View() == Commit(old(View()))
    {
      canvasSavedSpec := canvasDraftSpec;
      canvasDirty := false;
      canvasStatus := Saved;
    }

    method ApplyCanvasTerminalSideEffects(input: string, isError: bool)
      modifies this`activeCanvas, this`canvasDraftSpec, this`canvasSavedSpec, this`canvasValidation, this`canvasStatus, this`canvasDirty
      ensures View() == if isError then old(View()) else AfterCommand(c, old(View()), input)
    {
      hide CanonicalText, Check, Trim, Lower, HasPrefix, ParseSaveCommand, ParseNewCommand, ParseRenameCommand,
           ParseDeleteCommand;
      if isError {
        return;
      }
      var trimmed := Trim(input);
      var normalized := Lower(trimmed);
      if !HasPrefix(normalized, CANVAS) {
        return;
      }
      if HasPrefix(normalized, SAVE + " ") {
        var command := ParseSaveCommand(trimmed);
        if command.None? || activeCanvas != command.value.name {
          return;
        }
        var spec := CanonicalText(c, command.value.spec);
        if spec.Err? {
          canvasStatus := NormalizeFailed(spec.error);
          return;
        }
        canvasSavedSpec := spec.value;
        canvasDraftSpec := spec.value;
        canvasValidation := Check(c, canvasDraftSpec);
        canvasDirty := false;
        canvasStatus := Saved;
      } else if HasPrefix(normalized, NEW + " ") {
        var name := ParseNewCommand(trimmed);
        if name.Some? {
          canvasStatus := Created(name.value);
        }
      } else if HasPrefix(normalized, RENAME + " ") {
        var names := ParseRenameCommand(trimmed);
        if names.Some? && activeCanvas == names.value.0 {
          activeCanvas := names.value.1;
          canvasStatus := Renamed;
        }
      } else if HasPrefix(normalized, DELETE + " ") {
        var name := ParseDeleteCommand(trimmed);
        if name.Some? && activeCanvas == name.value {
          ClearActiveCanvas();
        }
      }
    }

    method SetConsoleVisible(visible: bool)
      modifies this`consoleVisible, this`sharedConsole
      ensures Console() == Show(old(Console()), visible)
    {
      consoleVisible := visible;
      if sharedConsole.Some? {
        sharedConsole := Some(visible);
      }
    }

    method PerformOnConsole(action: ConsoleAction) returns (fault: Option<Fault>)
      modifies this`consoleVisible, this`sharedConsole
      ensures Shown(Console(), fault) == DispatchConsole(old(Console()), action)
    {
      hide EqualFold, BoolLike, TogglesConsole;
      fault := None;
      match action
      case ToggleConsole => SetConsoleVisible(!consoleVisible);
      case SetConsoleState(payload) => SetConsoleVisible(BoolLike(payload));
      case Unsupported(_) => fault := Some(UnknownAction);
      case Shortcut(key) =>
        if EqualFold(key, "Escape") {
          SetConsoleVisible(false);
        } else if sharedConsole.Some? {
          if !TogglesConsole(key) {
            return Some(UnhandledShortcut);
          }
          sharedConsole := Some(!sharedConsole.value);
          consoleVisible := sharedConsole.value;
        }
    }

    /** The answer of the terminal to a command the shell has sent. */
    method Answer(action: Action, command: string, outcome: Outcome) returns (fault: Option<Fault>)
      requires UsesTerminal(action) && !outcome.Missing?
      modifies this`activeCanvas, this`canvasDraftSpec, this`canvasSavedSpec, this`canvasValidation, this`canvasStatus, this`canvasDirty
      ensures match outcome
              case Refused(message) => View() == old(View()) && fault == Some(RunnerFailed(message))
              case Answered(isError, message, unwritten) =>
                if unwritten && TypesCommand(action) then View() == old(View()) && fault == Some(WriterFailed)
                else View() == Conclude(c, old(View()), action, command, isError, message) && fault == None
    {
      hide AfterCommand;
      if outcome.Refused? {
        return Some(RunnerFailed(outcome.message));
      }
      if outcome.unwritten && TypesCommand(action) {
        return Some(WriterFailed);
      }
      fault := None;
      if action.SaveCanvas? {
        if !outcome.isError {
          CommitCanvasDraft();
        } else if outcome.message != "" {
          canvasStatus := SaveFailed(outcome.message);
        }
      } else if action.RunCanvas? {
        canvasStatus := Executed(outcome.isError);
      } else {
        ApplyCanvasTerminalSideEffects(command, outcome.isError);
      }
    }

    method PerformOnCanvas(action: Action, loaded: Result<string, Fault>, outcome: Outcome)
      returns (fault: Option<Fault>, sent: Option<string>)
      modifies this`activeCanvas, this`canvasDraftSpec, this`canvasSavedSpec, this`canvasValidation, this`canvasStatus, this`canvasDirty
      ensures Stepped(View(), fault) == Dispatch(c, old(View()), action, loaded, outcome)
      ensures sent.Some? <==> UsesTerminal(action) && !outcome.Missing? && CommandOf(c, old(View()), action).Ok?
      ensures sent.Some? ==> sent.value == CommandOf(c, old(View()), action).value
    {
      hide SetActive, SetDraft, EditDraft, Revert, AfterCommand, CommandOf, EditOf, Conclude;
      sent := None;
      if action.SetCanvas? {
        fault := SetActiveCanvas(action.name, loaded);
      } else if action.SetCanvasDraft? {
        fault := SetCanvasDraft(action.spec);
      } else if action.RevertCanvas? {
        fault := RevertCanvasDraft();
      } else if action.ClearCanvas? {
        ClearActiveCanvas();
        fault := None;
      } else if IsEdit(action) {
        var edit := EditOf(action);
        if edit.Err? {
          return Some(edit.error), None;
        }
        fault := ApplyCanvasDraftMutation(edit.value);
      } else {
        if TerminalFirst(action) && outcome.Missing? {
          return Some(NoRunner), None;
        }
        var command := CommandOf(c, View(), action);
        if command.Err? {
          return Some(command.error), None;
        }
        if outcome.Missing? {
          return Some(NoRunner), None;
        }
        sent := Some(command.value);
        fault := Answer(action, command.value, outcome);
      }
    }

    /**
      Dispatch, with the answers of the catalog and the terminal given up front; sent is
      the command the terminal was asked to run. It keeps the invariant.
     */
    method Perform(action: BusAction, loaded: Result<string, Fault>, outcome: Outcome)
      returns (fault: Option<Fault>, sent: Option<string>)
      requires Valid() && (action.OnCanvas? ==> ActionFloats(c, action.action))
      modifies this
      ensures Valid()
      ensures match action
              case OnConsole(a) => View() == old(View()) && Shown(Console(), fault) == DispatchConsole(old(Console()), a)
              case OnCanvas(a) => Console() == old(Console()) && Stepped(View(), fault) == Dispatch(c, old(View()), a, loaded, outcome)
      ensures sent.Some? <==>
                action.OnCanvas? && UsesTerminal(action.action) && !outcome.Missing? && CommandOf(c, old(View()), action.action).Ok?
      ensures sent.Some? ==> sent.value == CommandOf(c, old(View()), action.action).value
    {
      hide Lawful, Consistent, Dispatch, CommandOf, ActionFloats, EqualFold, BoolLike, TogglesConsole;
      match action
      case OnConsole(a) =>
        fault := PerformOnConsole(a);
        sent := None;
      case OnCanvas(a) =>
        DispatchConsistent(c, View(), a, loaded, outcome);
        fault, sent := PerformOnCanvas(a, loaded, outcome);
    }
  }
}
