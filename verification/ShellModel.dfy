/**
  The shell's canvas state as a value, and what every dispatched action does to it. What
  lies outside (the catalog and the terminal) enters as the answers it gives.
 */
module ShellModel {
  import opened Results
  import opened Text
  import opened CanvasModel
  import opened CanvasEdits
  import opened CanvasCommands
  import opened CanvasText
  import CanvasCompile

  const RUN_LIMIT := 200

  datatype Fault =
    | Rejected(text: TextFault)
    | NoActiveCanvas
    | DraftRequired
    | CatalogFailed(message: string)
    | BadPayload
    | NoRunner
    | RunnerFailed(message: string)
    | NothingToSave
    | Invalid(why: Fault)
    | NoCanvasSQL
    | WriterFailed
    | UnhandledShortcut
    | UnknownAction

  datatype Status =
    | Unset
    | NoneSelected
    | LoadFailed(fault: Fault)
    | NormalizeFailed(text: TextFault)
    | Loaded
    | DraftUpdated
    | DraftReverted
    | Saved
    | SaveFailed(message: string)
    | Created(name: string)
    | Renamed
    | Executed(failed: bool)

  /** validation is None where the program stores the empty message. */
  datatype Shell = Shell(
    active: string,
    draft: string,
    saved: string,
    validation: Option<Fault>,
    status: Status,
    dirty: bool)

  const EMPTY := Shell("", "", "", None, Unset, false)

  datatype Stepped = Stepped(shell: Shell, fault: Option<Fault>)

  // ---------- The state's own operations ----------

  function Check(c: Codec, text: string): Option<Fault> {
    match Validate(c, text)
    case None => None
    case Some(f) => Some(Rejected(f))
  }

  /** clearActiveCanvas */
  function Cleared(): Shell {
    EMPTY.(status := NoneSelected)
  }

  /** SetActiveCanvas; loaded is what the catalog answers for the trimmed name. */
  function SetActive(c: Codec, sh: Shell, name: string, loaded: Result<string, Fault>): Stepped {
    var name' := Trim(name);
    if name' == "" then Stepped(Cleared(), None)
    else
      match loaded
      case Err(f) => Stepped(Cleared().(active := name', validation := Some(f), status := LoadFailed(f)), Some(f))
      case Ok(spec) =>
        match CanonicalText(c, spec)
        case Err(f) => Stepped(Cleared().(status := NormalizeFailed(f)), Some(Rejected(f)))
        case Ok(text) => Stepped(Shell(name', text, text, Check(c, text), Loaded, false), None)
  }

  // The draft becomes a new text.
  function WithDraft(c: Codec, sh: Shell, text: string): Shell {
    sh.(draft := text, dirty := text != sh.saved, validation := Check(c, text), status := DraftUpdated)
  }

  /** SetCanvasDraft */
  function SetDraft(c: Codec, sh: Shell, spec: string): Stepped {
    if sh.active == "" then Stepped(sh, Some(NoActiveCanvas))
    else
      match CanonicalText(c, spec)
      case Err(f) => Stepped(sh, Some(Rejected(f)))
      case Ok(text) => Stepped(WithDraft(c, sh, text), None)
  }

  /** applyCanvasDraftMutation */
  function EditDraft(c: Codec, sh: Shell, e: Edit): Stepped {
    if sh.active == "" then Stepped(sh, Some(NoActiveCanvas))
    else if Trim(sh.draft) == "" then Stepped(sh, Some(DraftRequired))
    else
      match EditText(c, sh.draft, e)
      case Err(f) => Stepped(sh, Some(Rejected(f)))
      case Ok(text) => Stepped(WithDraft(c, sh, text), None)
  }

  /** RevertCanvasDraft */
  function Revert(c: Codec, sh: Shell): Stepped {
    if sh.active == "" then Stepped(sh, Some(NoActiveCanvas))
    else Stepped(sh.(draft := sh.saved, dirty := false, validation := Check(c, sh.saved), status := DraftReverted), None)
  }

  /** CommitCanvasDraft */
  function Commit(sh: Shell): Shell {
    sh.(saved := sh.draft, dirty := false, status := Saved)
  }

  // The canvas whose save command just ran is the active one: take over the stored text.
  function AfterSave(c: Codec, sh: Shell, name: string, spec: string): Shell {
    if sh.active != name then sh
    else
      match CanonicalText(c, spec)
      case Err(f) => sh.(status := NormalizeFailed(f))
      case Ok(text) => sh.(saved := text, draft := text, validation := Check(c, text), dirty := false, status := Saved)
  }

  /** applyCanvasTerminalSideEffects, for a command that did not fail. */
  function AfterCommand(c: Codec, sh: Shell, input: string): Shell {
    var trimmed := Trim(input);
    var lowered := Lower(trimmed);
    if !HasPrefix(lowered, CANVAS) then sh
    else if HasPrefix(lowered, SAVE + " ") then
      match ParseSaveCommand(trimmed)
      case None => sh
      case Some(cmd) => AfterSave(c, sh, cmd.name, cmd.spec)
    else if HasPrefix(lowered, NEW + " ") then
      match ParseNewCommand(trimmed)
      case None => sh
      case Some(name) => sh.(status := Created(name))
    else if HasPrefix(lowered, RENAME + " ") then
      match ParseRenameCommand(trimmed)
      case None => sh
      case Some(names) => if sh.active == names.0 then sh.(active := names.1, status := Renamed) else sh
    else if HasPrefix(lowered, DELETE + " ") then
      match ParseDeleteCommand(trimmed)
      case None => sh
      case Some(name) => if sh.active == name then Cleared() else sh
    else sh
  }

  // ---------- Actions ----------

  datatype MovePayload = MovePayload(nodeID: string, x: real, y: real)
  datatype FieldsPayload = FieldsPayload(nodeID: string, fields: seq<string>)
  datatype EdgeIDPayload = EdgeIDPayload(edgeID: string, id: string)
  datatype RenamePayload = RenamePayload(oldName: string, newName: string)

  /** A payload sent as JSON is given decoded, None when it is not JSON. */
  datatype Action =
    | SetCanvas(name: string)
    | SetCanvasDraft(spec: string)
    | MoveCanvasNode(move: Option<MovePayload>)
    | SetNodeFields(selection: Option<FieldsPayload>)
    | AddCanvasNode(node: Option<CanvasNode>)
    | AddCanvasEdge(edge: Option<CanvasEdge>)
    | PatchCanvasEdge(edge: Option<CanvasEdge>)
    | DeleteCanvasEdge(id: Option<EdgeIDPayload>)
    | RevertCanvas
    | ClearCanvas
    | SaveCanvas
    | CanvasNew(raw: string, json: Option<string>)
    | CanvasRename(raw: string, renaming: Option<RenamePayload>)
    | CanvasDelete(raw: string, json: Option<string>)
    | RunCanvas
    | RunTerminal(input: string)
    | RunVectorize(input: string)

  function TrimmedNode(n: CanvasNode): CanvasNode {
    n.(id := Trim(n.id), kind := Trim(n.kind), table := Trim(n.table), alias := Trim(n.alias))
  }

  function TrimmedEdge(e: CanvasEdge): CanvasEdge {
    e.(id := Trim(e.id), fromNode := Trim(e.fromNode), toNode := Trim(e.toNode), fromColumn := Trim(e.fromColumn),
       toColumn := Trim(e.toColumn), joinType := Trim(e.joinType))
  }

  /** The edit an action asks for; the payload parsers refuse a blank id. */
  function EditOf(a: Action): Result<Edit, Fault> {
    match a
    case MoveCanvasNode(Some(p)) => if Trim(p.nodeID) == "" then Err(BadPayload) else Ok(Move(Trim(p.nodeID), p.x, p.y))
    case SetNodeFields(Some(p)) => if Trim(p.nodeID) == "" then Err(BadPayload) else Ok(SetFields(Trim(p.nodeID), p.fields))
    case AddCanvasNode(Some(n)) => if Trim(n.id) == "" then Err(BadPayload) else Ok(NewNode(TrimmedNode(n)))
    case AddCanvasEdge(Some(e)) => if Trim(e.id) == "" then Err(BadPayload) else Ok(NewEdge(TrimmedEdge(e)))
    case PatchCanvasEdge(Some(e)) => if Trim(e.id) == "" then Err(BadPayload) else Ok(Patch(TrimmedEdge(e)))
    case DeleteCanvasEdge(Some(p)) =>
      if Trim(p.edgeID) != "" then Ok(Delete(Trim(p.edgeID)))
      else if Trim(p.id) != "" then Ok(Delete(Trim(p.id)))
      else Err(BadPayload)
    case _ => Err(BadPayload)
  }

  predicate IsEdit(a: Action) {
    a.MoveCanvasNode? || a.SetNodeFields? || a.AddCanvasNode? || a.AddCanvasEdge? || a.PatchCanvasEdge? || a.DeleteCanvasEdge?
  }

  /** parseCanvasNamePayload: text that is not JSON is the name itself. */
  function NamePayload(raw: string, json: Option<string>): Result<string, Fault> {
    var name := if json.Some? then Trim(json.value) else Trim(raw);
    if name == "" then Err(BadPayload) else Ok(name)
  }

  /** parseCanvasRenamePayload */
  function RenameNames(raw: string, json: Option<RenamePayload>): Result<(string, string), Fault> {
    match json
    case Some(p) =>
      if Trim(p.oldName) == "" || Trim(p.newName) == "" then Err(BadPayload) else Ok((Trim(p.oldName), Trim(p.newName)))
    case None =>
      var parts := Fields(Trim(raw));
      if |parts| != 2 then Err(BadPayload) else Ok((parts[0], parts[1]))
  }

  /** activeCanvasSQL */
  function ActiveSQL(c: Codec, sh: Shell): Result<string, Fault> {
    if Trim(sh.active) == "" then Err(NoActiveCanvas)
    else if sh.validation.Some? then Err(Invalid(sh.validation.value))
    else
      match ParseText(c, sh.draft)
      case Err(f) => Err(Rejected(f))
      case Ok(s) =>
        match CanvasCompile.Compile(s, RUN_LIMIT)
        case Err(_) => Err(NoCanvasSQL)
        case Ok(q) => if Trim(q.sql) == "" then Err(NoCanvasSQL) else Ok(Trim(q.sql))
  }

  /** The command an action sends to the terminal, or why it sends none. */
  function CommandOf(c: Codec, sh: Shell, a: Action): Result<string, Fault> {
    match a
    case SaveCanvas =>
      var command := BuildSave(sh.active, sh.draft);
      if command == "" then Err(NothingToSave)
      else if sh.validation.Some? then Err(Invalid(sh.validation.value))
      else Ok(command)
    case CanvasNew(raw, json) =>
      (match NamePayload(raw, json)
       case Err(f) => Err(f)
       case Ok(name) => Ok(BuildNew(name)))
    case CanvasRename(raw, json) =>
      (match RenameNames(raw, json)
       case Err(f) => Err(f)
       case Ok(names) => Ok(BuildRename(names.0, names.1)))
    case CanvasDelete(raw, json) =>
      (match NamePayload(raw, json)
       case Err(f) => Err(f)
       case Ok(name) => Ok(BuildDelete(name)))
    case RunCanvas => ActiveSQL(c, sh)
    case RunTerminal(input) => Ok(input)
    case RunVectorize(input) => Ok(input)
    case _ => Err(NothingToSave)
  }

  predicate TypesCommand(a: Action) {
    a.RunTerminal? || a.RunVectorize?
  }

  predicate UsesTerminal(a: Action) {
    a.SaveCanvas? || a.CanvasNew? || a.CanvasRename? || a.CanvasDelete? || a.RunCanvas? || TypesCommand(a)
  }

  /** These actions ask for the terminal before they look at anything else; the others read their payload first. */
  predicate TerminalFirst(a: Action) {
    a.SaveCanvas? || a.RunCanvas? || TypesCommand(a)
  }

  /**
    What the terminal answers: it may be missing, refuse to run, or report a result.
    unwritten says that the result carries vectors which the artifact writer refused.
   */
  datatype Outcome = Missing | Refused(message: string) | Answered(isError: bool, message: string, unwritten: bool)

  /** What an answered command does to the shell. */
  function Conclude(c: Codec, sh: Shell, a: Action, command: string, isError: bool, message: string): Shell {
    match a
    case SaveCanvas =>
      if !isError then Commit(sh)
      else if message != "" then sh.(status := SaveFailed(message))
      else sh
    case RunCanvas => sh.(status := Executed(isError))
    case _ => if isError then sh else AfterCommand(c, sh, command)
  }

  /** ShellCommandBus.Dispatch on the canvas fields. */
  function Dispatch(c: Codec, sh: Shell, a: Action, loaded: Result<string, Fault>, outcome: Outcome): Stepped {
    match a
    case SetCanvas(name) => SetActive(c, sh, name, loaded)
    case SetCanvasDraft(spec) => SetDraft(c, sh, spec)
    case RevertCanvas => Revert(c, sh)
    case ClearCanvas => Stepped(Cleared(), None)
    case _ =>
      if IsEdit(a) then
        match EditOf(a)
        case Err(f) => Stepped(sh, Some(f))
        case Ok(e) => EditDraft(c, sh, e)
      else if outcome.Missing? && TerminalFirst(a) then Stepped(sh, Some(NoRunner))
      else
        match CommandOf(c, sh, a)
        case Err(f) => Stepped(sh, Some(f))
        case Ok(command) =>
          match outcome
          case Missing => Stepped(sh, Some(NoRunner))
          case Refused(message) => Stepped(sh, Some(RunnerFailed(message)))
          case Answered(isError, message, unwritten) =>
            if unwritten && TypesCommand(a) then Stepped(sh, Some(WriterFailed))
            else Stepped(Conclude(c, sh, a, command, isError, message), None)
  }

  // ---------- The console ----------

  /** Actions of the bus that show or hide the console, and kinds it does not know. */
  datatype ConsoleAction =
    | ToggleConsole
    | SetConsoleState(payload: string)
    | Shortcut(key: string)
    | Unsupported(kind: string)

  /** The shell's own flag, and the flag of the shared console if there is one. */
  datatype Console = Console(visible: bool, shared: Option<bool>)

  datatype Shown = Shown(console: Console, fault: Option<Fault>)

  /** parseBoolLike */
  predicate BoolLike(input: string) {
    var t := Trim(input);
    EqualFold(t, "true") || EqualFold(t, "on") || EqualFold(t, "1")
  }

  /** EventConsole.HandleShortcut */
  predicate TogglesConsole(key: string) {
    var k := Upper(Trim(key));
    k == "F12" || k == "VK_F12"
  }

  /** SetConsoleVisible */
  function Show(console: Console, visible: bool): Console {
    Console(visible, if console.shared.Some? then Some(visible) else None)
  }

  /** ShellCommandBus.Dispatch on the console. */
  function DispatchConsole(console: Console, a: ConsoleAction): Shown {
    match a
    case ToggleConsole => Shown(Show(console, !console.visible), None)
    case SetConsoleState(payload) => Shown(Show(console, BoolLike(payload)), None)
    case Unsupported(_) => Shown(console, Some(UnknownAction))
    case Shortcut(key) =>
      if EqualFold(key, "Escape") then Shown(Show(console, false), None)
      else if console.shared.None? then Shown(console, None)
      else if !TogglesConsole(key) then Shown(console, Some(UnhandledShortcut))
      else Shown(Show(console, !console.shared.value), None)
  }

  /** The shell shows the console exactly when the shared one is visible. */
  predicate InSync(console: Console) {
    console.shared.Some? ==> console.visible == console.shared.value
  }
}
