/**
  The shell and the store side by side: every dispatched action sends its command text to
  the terminal, whose answer the shell follows. Over whole runs the shell's saved copy is
  the stored canvas, and stored versions count the saves and renames.
 */
module CanvasSession {
  import opened Results
  import opened Text
  import opened CanvasCommands
  import opened CanvasText
  import opened CanvasStore
  import opened CanvasTerminal
  import opened ShellModel
  import opened ShellRuns

  const FAILED := "failed"

  /** What happened to stored canvases, oldest first. */
  datatype Change = Born(id: string) | Revised(id: string) | Dropped(id: string)

  datatype Session = Session(shell: Shell, rows: seq<Row>, log: seq<Change>)

  /** LoadCanvasSpec: the text stored under a name. */
  function Load(rows: seq<Row>, name: string): Result<string, Fault> {
    match FindByName(rows, name)
    case Err(_) => Err(CatalogFailed(name))
    case Ok(k) => Ok(rows[k].spec)
  }

  function LoadFor(rows: seq<Row>, a: Action): Result<string, Fault> {
    if a.SetCanvas? then Load(rows, a.name) else Err(CatalogFailed(""))
  }

  /** The terminal's run of the command of an action, if it sends one. */
  function Ran(c: Codec, s: Session, a: Action): Option<CanvasTerminal.Ran> {
    if !UsesTerminal(a) || CommandOf(c, s.shell, a).Err? then None
    else Execute(c, s.rows, CommandOf(c, s.shell, a).value)
  }

  function Reply(ran: Option<CanvasTerminal.Ran>): ShellModel.Outcome {
    match ran
    case None => Refused(FAILED)
    case Some(r) => Answered(r.isError, FAILED, false)
  }

  // The row a successful command was about.
  function Subject(c: Codec, s: Session, a: Action, after: seq<Row>): Option<Change> {
    match a
    case CanvasNew(_, _) => if after == [] then None else Some(Born(after[|after| - 1].id))
    case SaveCanvas => IdNamed(s.rows, s.shell.active, false)
    case CanvasRename(raw, names) => if RenameNames(raw, names).Ok? then IdNamed(s.rows, RenameNames(raw, names).value.0, false) else None
    case CanvasDelete(raw, json) => if NamePayload(raw, json).Ok? then IdNamed(s.rows, NamePayload(raw, json).value, true) else None
    case _ => None
  }

  function IdNamed(rows: seq<Row>, name: string, dropped: bool): Option<Change> {
    match NamedAt(rows, name)
    case None => None
    case Some(k) => Some(if dropped then Dropped(rows[k].id) else Revised(rows[k].id))
  }

  function Logged(log: seq<Change>, change: Option<Change>): seq<Change> {
    if change.Some? then log + [change.value] else log
  }

  /** One dispatched action of the shell with its effect on the store. */
  function Step(c: Codec, s: Session, a: Action): Session {
    var ran := Ran(c, s, a);
    var shell := Dispatch(c, s.shell, a, LoadFor(s.rows, a), Reply(ran)).shell;
    if ran.None? || ran.value.isError then s.(shell := shell)
    else Session(shell, ran.value.rows, Logged(s.log, Subject(c, s, a, ran.value.rows)))
  }

  function RunSession(c: Codec, s: Session, actions: seq<Action>): Session
    decreases |actions|
  {
    if actions == [] then s else RunSession(c, Step(c, s, actions[0]), actions[1..])
  }

  /** How often a canvas made during the run was saved or renamed since; None when it was there before. */
  function Revisions(log: seq<Change>, id: string): Option<nat> {
    if log == [] then None
    else
      var before := Revisions(log[..|log| - 1], id);
      var last := log[|log| - 1];
      if last.id != id then before
      else
        match last
        case Born(_) => Some(0)
        case Dropped(_) => None
        case Revised(_) => if before.Some? then Some(before.value + 1) else None
  }

  // ---------- What is kept ----------

  predicate Word(s: string) {
    s != "" && SpaceFree(s)
  }

  /** A saved copy is the canonical form of what is stored under the active name, whichever row the lookup picks. */
  predicate Mirrors(c: Codec, shell: Shell, rows: seq<Row>) {
    shell.saved != "" ==>
      && (exists i :: 0 <= i < |rows| && rows[i].name == shell.active)
      && (forall i :: 0 <= i < |rows| && rows[i].name == shell.active ==> CanonicalText(c, rows[i].spec) == Ok(shell.saved))
  }

  predicate Versioned(rows: seq<Row>, log: seq<Change>) {
    forall i :: 0 <= i < |rows| && Revisions(log, rows[i].id).Some? ==>
      rows[i].version == 1 + Revisions(log, rows[i].id).value
  }

  predicate Tidy(rows: seq<Row>) {
    UniqueIds(rows) && UniqueNames(rows) && forall i :: 0 <= i < |rows| ==> Word(rows[i].name)
  }

  ghost predicate InStep(c: Codec, s: Session) {
    && Consistent(c, s.shell)
    && (s.shell.active == "" || Word(s.shell.active))
    && Tidy(s.rows)
    && Mirrors(c, s.shell, s.rows)
    && Versioned(s.rows, s.log)
  }

  /** No other canvas than the renamed one has the new name. */
  predicate TargetFree(rows: seq<Row>, oldName: string, newName: string) {
    forall i :: 0 <= i < |rows| && rows[i].name != oldName ==> rows[i].name != newName
  }

  /** A canvas action of the bus: no raw terminal input, names without white space, rename targets not in use. */
  predicate Admissible(c: Codec, s: Session, a: Action) {
    && Ordinary(c, a)
    && (a.CanvasRename? && RenameNames(a.raw, a.renaming).Ok? ==>
          TargetFree(s.rows, RenameNames(a.raw, a.renaming).value.0, RenameNames(a.raw, a.renaming).value.1))
  }

  predicate Ordinary(c: Codec, a: Action) {
    && !TypesCommand(a) && !a.RunCanvas?
    && ActionFloats(c, a)
    && (a.SetCanvas? ==> SpaceFree(Trim(a.name)))
    && (a.CanvasNew? && NamePayload(a.raw, a.json).Ok? ==> SpaceFree(NamePayload(a.raw, a.json).value))
    && (a.CanvasRename? && RenameNames(a.raw, a.renaming).Ok? ==>
          SpaceFree(RenameNames(a.raw, a.renaming).value.0) && SpaceFree(RenameNames(a.raw, a.renaming).value.1))
  }

  predicate AdmissibleRun(c: Codec, s: Session, actions: seq<Action>)
    decreases |actions|
  {
    actions != [] ==> Admissible(c, s, actions[0]) && AdmissibleRun(c, Step(c, s, actions[0]), actions[1..])
  }

  // ---------- How the shell reads its own commands ----------

  lemma LowerConcat(a: string, b: string)
    ensures Lower(a + b) == Lower(a) + Lower(b)
  {
  }

  lemma LoweredPrefix(command: string, rest: string)
    requires command == SAVE || command == NEW || command == RENAME || command == DELETE
    requires rest != "" && Trimmed(rest)
    ensures var t := command + " " + rest;
            && Trim(t) == t
            && HasPrefix(Lower(t), CANVAS)
            && (HasPrefix(Lower(t), SAVE + " ") <==> command == SAVE)
            && (HasPrefix(Lower(t), NEW + " ") <==> command == NEW)
            && (HasPrefix(Lower(t), RENAME + " ") <==> command == RENAME)
            && (HasPrefix(Lower(t), DELETE + " ") <==> command == DELETE)
  {
    hide Trim, Lower, HasPrefix;
    var t := command + " " + rest;
    assert t[0] == '\\' && t[|t| - 1] == rest[|rest| - 1];
    TrimmedEnds(t);
    LoweredCommand(command, rest);
    SamePrefix(Lower(t), SAVE, command);
    SamePrefix(Lower(t), NEW, command);
    SamePrefix(Lower(t), RENAME, command);
    SamePrefix(Lower(t), DELETE, command);
  }

  lemma LoweredCommand(command: string, rest: string)
    requires command == SAVE || command == NEW || command == RENAME || command == DELETE
    ensures var t := command + " " + rest;
            HasPrefix(Lower(t), command + " ") && HasPrefix(Lower(t), CANVAS)
  {
    var t := command + " " + rest;
    assert Lower(command + " ") == command + " ";
    LowerConcat(command + " ", rest);
    PrefixOfConcat(command + " ", Lower(rest));
    assert Lower(t)[..7] == CANVAS;
  }

  // Two of the command words are told apart by the letter after the space.
  lemma SamePrefix(t: string, a: string, b: string)
    requires |a| > 8 && |b| > 8 && HasPrefix(t, b + " ")
    requires a[8] == b[8] ==> a == b
    ensures HasPrefix(t, a + " ") <==> a == b
  {
    if HasPrefix(t, a + " ") {
      assert t[..|a| + 1][8] == t[8] && t[..|b| + 1][8] == t[8];
    }
  }

  lemma AfterNew(c: Codec, sh: Shell, name: string)
    requires Word(name)
    ensures AfterCommand(c, sh, BuildNew(name)) == sh.(status := Created(name))
  {
    hide Trim, Lower, HasPrefix, ParseNewCommand, ParseSimpleName, ParseSaveCommand, ParseRenameCommand, ParseDeleteCommand,
         AfterSave;
    WordIsTrimmed(name);
    LoweredPrefix(NEW, name);
    NewRoundTrip(name);
  }

  lemma AfterRename(c: Codec, sh: Shell, oldName: string, newName: string)
    requires Word(oldName) && Word(newName)
    ensures AfterCommand(c, sh, BuildRename(oldName, newName)) ==
              if sh.active == oldName then sh.(active := newName, status := Renamed) else sh
  {
    hide Trim, Lower, HasPrefix, ParseNewCommand, ParseRenameNames, ParseSaveCommand, ParseRenameCommand, ParseDeleteCommand,
         AfterSave;
    var rest := oldName + " " + newName;
    assert rest[0] == oldName[0] && rest[|rest| - 1] == newName[|newName| - 1];
    assert BuildRename(oldName, newName) == RENAME + " " + rest;
    LoweredPrefix(RENAME, rest);
    RenameRoundTrip(oldName, newName);
  }

  lemma AfterDelete(c: Codec, sh: Shell, name: string)
    requires Word(name)
    ensures AfterCommand(c, sh, BuildDelete(name)) == if sh.active == name then Cleared() else sh
  {
    hide Trim, Lower, HasPrefix, ParseNewCommand, ParseSimpleName, ParseSaveCommand, ParseRenameCommand, ParseDeleteCommand,
         AfterSave;
    WordIsTrimmed(name);
    LoweredPrefix(DELETE, name);
    DeleteParsersAgreeIff(name);
  }

  /** A save command typed into the terminal: if it names the active canvas, draft and saved copy both become the stored text. */
  lemma AfterTypedSave(c: Codec, sh: Shell, name: string, spec: string)
    requires Word(name) && Braced(spec)
    ensures AfterCommand(c, sh, BuildSave(name, spec)) == AfterSave(c, sh, name, spec)
    ensures sh.active == name && CanonicalText(c, spec).Ok? ==>
              var after := AfterSave(c, sh, name, spec);
              after.saved == CanonicalText(c, spec).value && after.draft == after.saved && !after.dirty
    ensures sh.active != name ==> AfterSave(c, sh, name, spec) == sh
  {
    hide Trim, Lower, HasPrefix, ParseNewCommand, ParseSavePayload, ParseSaveCommand, ParseRenameCommand, ParseDeleteCommand,
         CanonicalText, Check;
    WordIsTrimmed(name);
    var rest := name + " '" + spec + "'";
    assert rest[0] == name[0] && rest[|rest| - 1] == '\'';
    assert BuildSave(name, spec) == SAVE + " " + rest;
    LoweredPrefix(SAVE, rest);
    SaveRoundTrip(name, spec);
  }

  // ---------- Versions ----------

  lemma RevisionsAppend(log: seq<Change>, change: Change, id: string)
    ensures change.id != id ==> Revisions(log + [change], id) == Revisions(log, id)
    ensures change == Born(id) ==> Revisions(log + [change], id) == Some(0)
    ensures change == Dropped(id) ==> Revisions(log + [change], id) == None
    ensures change == Revised(id) ==>
              Revisions(log + [change], id) ==
                if Revisions(log, id).Some? then Some(Revisions(log, id).value + 1) else None
  {
    assert (log + [change])[..|log|] == log;
  }

  lemma RevisedVersioned(rows: seq<Row>, log: seq<Change>, k: nat, row: Row)
    requires UniqueIds(rows) && Versioned(rows, log) && k < |rows|
    requires row.id == rows[k].id && row.version == NextVersion(rows[k].version)
    ensures Versioned(rows[k := row], log + [Revised(row.id)])
  {
    hide Revisions;
    var after := rows[k := row];
    forall i | 0 <= i < |after|
      ensures var r := Revisions(log + [Revised(row.id)], after[i].id);
              r.Some? ==> after[i].version == 1 + r.value
    {
      RevisionsAppend(log, Revised(row.id), rows[i].id);
    }
  }

  lemma BornVersioned(rows: seq<Row>, log: seq<Change>, row: Row)
    requires Versioned(rows, log) && !IdUsed(rows, row.id) && row.version == 1
    ensures Versioned(rows + [row], log + [Born(row.id)])
  {
    hide Revisions;
    var after := rows + [row];
    forall i | 0 <= i < |after|
      ensures var r := Revisions(log + [Born(row.id)], after[i].id);
              r.Some? ==> after[i].version == 1 + r.value
    {
      RevisionsAppend(log, Born(row.id), after[i].id);
    }
  }

  lemma DroppedVersioned(rows: seq<Row>, log: seq<Change>, k: nat)
    requires UniqueIds(rows) && Versioned(rows, log) && k < |rows|
    ensures Versioned(rows[..k] + rows[k + 1..], log + [Dropped(rows[k].id)])
  {
    hide Revisions;
    var after := rows[..k] + rows[k + 1..];
    forall i | 0 <= i < |after|
      ensures var r := Revisions(log + [Dropped(rows[k].id)], after[i].id);
              r.Some? ==> after[i].version == 1 + r.value
    {
      var j := if i < k then i else i + 1;
      assert after[i] == rows[j];
      RevisionsAppend(log, Dropped(rows[k].id), after[i].id);
    }
  }

  // ---------- Tables that stay tidy ----------

  lemma RowReplacedTidy(rows: seq<Row>, k: nat, row: Row)
    requires Tidy(rows) && k < |rows| && row.id == rows[k].id && Word(row.name)
    requires forall i :: 0 <= i < |rows| && i != k ==> rows[i].name != row.name
    ensures Tidy(rows[k := row])
  {
    hide Word;
  }

  lemma RowRemovedTidy(rows: seq<Row>, k: nat)
    requires Tidy(rows) && k < |rows|
    ensures Tidy(rows[..k] + rows[k + 1..])
  {
    hide Word;
    var after := rows[..k] + rows[k + 1..];
    assert forall i :: 0 <= i < |after| ==> after[i] == rows[if i < k then i else i + 1];
  }

  // ---------- One action each ----------

  lemma SetCanvasInStep(c: Codec, s: Session, name: string)
    requires InStep(c, s) && SpaceFree(Trim(name))
    ensures var sh := SetActive(c, s.shell, name, Load(s.rows, name)).shell;
            (sh.active == "" || Word(sh.active)) && Mirrors(c, sh, s.rows)
  {
    hide Consistent, Versioned, CanonicalText, Check, Trim;
    if Trim(name) != "" && Load(s.rows, name).Ok? {
      NamedAtOnly(s.rows, FindByName(s.rows, name).value);
    }
  }

  lemma QuietInStep(c: Codec, s: Session, a: Action)
    requires InStep(c, s) && Ordinary(c, a) && !UsesTerminal(a)
    ensures var t := Step(c, s, a);
            && t.rows == s.rows && t.log == s.log
            && (t.shell.active == "" || Word(t.shell.active)) && Mirrors(c, t.shell, s.rows)
  {
    hide Consistent, Versioned, Word, Tidy, CanonicalText, Check, SetActive, Load, SetDraft, EditDraft, EditOf, ActionFloats,
         NamePayload, RenameNames, SpaceFree, CommandOf;
    if a.SetCanvas? {
      SetCanvasInStep(c, s, a.name);
    } else if Drafting(a) {
      FailedDraftingChangesNothing(c, s.shell, a, LoadFor(s.rows, a), Reply(None));
    }
  }

  // The canvas under the active name, when there is a saved copy.
  lemma ActiveDraft(c: Codec, sh: Shell)
    requires Lawful(c) && Consistent(c, sh) && CommandOf(c, sh, SaveCanvas).Ok?
    requires sh.active == "" || Word(sh.active)
    ensures Word(sh.active) && Braced(sh.draft) && CanonicalText(c, sh.draft) == Ok(sh.draft)
    ensures CommandOf(c, sh, SaveCanvas).value == BuildSave(sh.active, sh.draft)
  {
    hide IsCanonical, Lawful, CanonicalText, SpaceFree;
    assert Trim("") == "";
    CanonicalReads(c, sh.draft);
  }

  lemma SaveRuns(c: Codec, s: Session)
    requires Lawful(c) && InStep(c, s) && CommandOf(c, s.shell, SaveCanvas).Ok?
    ensures Ran(c, s, SaveCanvas) == CanvasTerminal.Outcome(s.rows, SaveSpec(c, s.rows, s.shell.active, s.shell.draft))
  {
    hide Lawful, Consistent, CommandOf, Execute, SaveSpec, Tidy, Mirrors, Versioned, CanonicalText, SpaceFree;
    ActiveDraft(c, s.shell);
    ExecuteSave(c, s.rows, s.shell.active, s.shell.draft);
  }

  lemma SaveInStep(c: Codec, s: Session)
    requires Lawful(c) && InStep(c, s)
    ensures var t := Step(c, s, SaveCanvas);
            && t.shell.active == s.shell.active
            && Tidy(t.rows) && Mirrors(c, t.shell, t.rows) && Versioned(t.rows, t.log)
  {
    hide Lawful, CommandOf, SaveSpec, Versioned, CanonicalText, SpaceFree, Ran, Tidy, Consistent, NamedAt, NextVersion;
    if CommandOf(c, s.shell, SaveCanvas).Err? {
      assert Ran(c, s, SaveCanvas) == None by { SaveSendsNothing(c, s); }
    } else {
      SaveRuns(c, s);
      ActiveDraft(c, s.shell);
      if SaveSpec(c, s.rows, s.shell.active, s.shell.draft).Ok? {
        SavedRow(c, s);
      }
    }
  }

  lemma SaveSendsNothing(c: Codec, s: Session)
    requires CommandOf(c, s.shell, SaveCanvas).Err?
    ensures Ran(c, s, SaveCanvas) == None
  {
    hide CommandOf, Execute;
  }

  lemma SavedRow(c: Codec, s: Session)
    requires InStep(c, s) && Word(s.shell.active) && CanonicalText(c, s.shell.draft) == Ok(s.shell.draft)
    requires SaveSpec(c, s.rows, s.shell.active, s.shell.draft).Ok?
    ensures var after := SaveSpec(c, s.rows, s.shell.active, s.shell.draft).value;
            && Tidy(after)
            && Mirrors(c, Commit(s.shell), after)
            && Versioned(after, Logged(s.log, IdNamed(s.rows, s.shell.active, false)))
  {
    hide Consistent, Versioned, CanonicalText, SpaceFree, SaveSpec, NextVersion;
    WordIsTrimmed(s.shell.active);
    SaveMeaning(c, s.rows, s.shell.active, s.shell.draft);
    var after := SaveSpec(c, s.rows, s.shell.active, s.shell.draft).value;
    var k :| 0 <= k < |s.rows| && s.rows[k].name == Trim(s.shell.active) && after ==
      s.rows[k := Row(s.rows[k].id, s.rows[k].name, CanonicalText(c, s.shell.draft).value, NextVersion(s.rows[k].version))];
    NamedAtOnly(s.rows, k);
    RowReplacedTidy(s.rows, k, after[k]);
    RevisedVersioned(s.rows, s.log, k, after[k]);
    assert after[k].name == s.shell.active;
  }

  lemma NewInStep(c: Codec, s: Session, a: Action)
    requires InStep(c, s) && a.CanvasNew? && Ordinary(c, a)
    ensures var t := Step(c, s, a);
            && t.shell.active == s.shell.active && t.shell.saved == s.shell.saved
            && Tidy(t.rows) && Mirrors(c, t.shell, t.rows) && Versioned(t.rows, t.log)
  {
    hide Consistent, Versioned, CanonicalText, SpaceFree, Execute, CreateDraft, AfterCommand, ActionFloats, NamePayload,
         RenameNames, Tidy, Trim;
    if NamePayload(a.raw, a.json).Ok? {
      var name := NamePayload(a.raw, a.json).value;
      PayloadIsName(a);
      ExecuteNew(c, s.rows, name);
      AfterNew(c, s.shell, name);
      if CreateDraft(s.rows, name).Ok? {
        NewRow(c, s, name);
      }
    }
  }

  lemma PayloadIsName(a: Action)
    requires a.CanvasNew? && NamePayload(a.raw, a.json).Ok?
    ensures NamePayload(a.raw, a.json).value != "" && Trimmed(NamePayload(a.raw, a.json).value)
  {
  }

  lemma NewRow(c: Codec, s: Session, name: string)
    requires InStep(c, s) && Word(name) && CreateDraft(s.rows, name).Ok?
    ensures var after := CreateDraft(s.rows, name).value;
            && after != [] && Tidy(after) && Mirrors(c, s.shell, after)
            && Versioned(after, s.log + [Born(after[|after| - 1].id)])
  {
    hide Consistent, Versioned, CanonicalText, SpaceFree, CreateDraft, IdUsed;
    WordIsTrimmed(name);
    CreateDraftMeaning(s.rows, name);
    var after := CreateDraft(s.rows, name).value;
    assert after == s.rows + [after[|s.rows|]];
    BornVersioned(s.rows, s.log, after[|s.rows|]);
    assert forall i :: 0 <= i < |s.rows| ==> after[i] == s.rows[i];
  }

  lemma RenameRuns(c: Codec, s: Session, a: Action)
    requires a.CanvasRename? && Ordinary(c, a) && RenameNames(a.raw, a.renaming).Ok?
    ensures var names := RenameNames(a.raw, a.renaming).value;
            && Word(names.0) && Word(names.1)
            && Ran(c, s, a) == CanvasTerminal.Outcome(s.rows, Rename(s.rows, names.0, names.1))
            && (Rename(s.rows, names.0, names.1).Ok? ==>
                  Step(c, s, a).shell ==
                    if s.shell.active == names.0 then s.shell.(active := names.1, status := Renamed) else s.shell)
            && (Rename(s.rows, names.0, names.1).Err? ==> Step(c, s, a).shell == s.shell)
  {
    hide Execute, Rename, AfterCommand, ActionFloats, NamePayload, RenameNames, SpaceFree;
    var names := RenameNames(a.raw, a.renaming).value;
    RenamePayloadNames(a.raw, a.renaming);
    ExecuteRename(c, s.rows, names.0, names.1);
    AfterRename(c, s.shell, names.0, names.1);
  }

  lemma RenamePayloadNames(raw: string, json: Option<RenamePayload>)
    requires RenameNames(raw, json).Ok?
    ensures RenameNames(raw, json).value.0 != "" && RenameNames(raw, json).value.1 != ""
  {
  }

  lemma RenameInStep(c: Codec, s: Session, a: Action)
    requires InStep(c, s) && a.CanvasRename? && Admissible(c, s, a)
    ensures var t := Step(c, s, a);
            && (t.shell.active == "" || Word(t.shell.active))
            && Tidy(t.rows) && Mirrors(c, t.shell, t.rows) && Versioned(t.rows, t.log)
  {
    hide Consistent, Versioned, CanonicalText, SpaceFree, Rename, Ran, ActionFloats, NamePayload, RenameNames, Tidy, Mirrors,
         TargetFree, Dispatch;
    if RenameNames(a.raw, a.renaming).Ok? {
      var names := RenameNames(a.raw, a.renaming).value;
      RenameRuns(c, s, a);
      if Rename(s.rows, names.0, names.1).Ok? {
        RenamedRow(c, s, names.0, names.1);
      }
    } else {
      RenameSendsNothing(c, s, a);
    }
  }

  lemma RenameSendsNothing(c: Codec, s: Session, a: Action)
    requires a.CanvasRename? && RenameNames(a.raw, a.renaming).Err?
    ensures Step(c, s, a) == s
  {
    hide RenameNames, Execute;
  }

  lemma RenamedRow(c: Codec, s: Session, oldName: string, newName: string)
    requires InStep(c, s) && Word(oldName) && Word(newName) && TargetFree(s.rows, oldName, newName)
    requires Rename(s.rows, oldName, newName).Ok?
    ensures var after := Rename(s.rows, oldName, newName).value;
            var shell := if s.shell.active == oldName then s.shell.(active := newName, status := Renamed) else s.shell;
            && Tidy(after) && Mirrors(c, shell, after)
            && Versioned(after, Logged(s.log, IdNamed(s.rows, oldName, false)))
  {
    hide Consistent, Versioned, CanonicalText, SpaceFree, Rename, NextVersion;
    WordIsTrimmed(oldName);
    WordIsTrimmed(newName);
    RenameMeaning(s.rows, oldName, newName);
    var after := Rename(s.rows, oldName, newName).value;
    var k :| 0 <= k < |s.rows| && s.rows[k].name == Trim(oldName)
             && after == s.rows[k := Row(s.rows[k].id, Trim(newName), s.rows[k].spec, NextVersion(s.rows[k].version))];
    NamedAtOnly(s.rows, k);
    RowReplacedTidy(s.rows, k, after[k]);
    RevisedVersioned(s.rows, s.log, k, after[k]);
    RenamedMirrors(c, s, k, newName, after);
  }

  lemma RenamedMirrors(c: Codec, s: Session, k: nat, newName: string, after: seq<Row>)
    requires Tidy(s.rows) && Mirrors(c, s.shell, s.rows) && k < |s.rows|
    requires TargetFree(s.rows, s.rows[k].name, newName)
    requires |after| == |s.rows| && after[k].name == newName && after[k].spec == s.rows[k].spec
    requires forall i :: 0 <= i < |s.rows| && i != k ==> after[i] == s.rows[i]
    ensures Mirrors(c, if s.shell.active == s.rows[k].name then s.shell.(active := newName, status := Renamed) else s.shell, after)
  {
    hide CanonicalText, Word;
    if s.shell.saved != "" {
      var j :| 0 <= j < |s.rows| && s.rows[j].name == s.shell.active;
      if s.shell.active == s.rows[k].name {
        assert j == k;
        assert after[k].name == newName;
      } else {
        assert after[j].name == s.shell.active;
      }
    }
  }

  lemma DeleteInStep(c: Codec, s: Session, a: Action)
    requires InStep(c, s) && a.CanvasDelete?
    ensures var t := Step(c, s, a);
            && (t.shell.active == "" || Word(t.shell.active))
            && Tidy(t.rows) && Mirrors(c, t.shell, t.rows) && Versioned(t.rows, t.log)
  {
    hide Consistent, Versioned, CanonicalText, SpaceFree, Execute, CanvasStore.DeleteCanvas, AfterCommand, NamePayload,
         Tidy, Trim, Mirrors;
    if NamePayload(a.raw, a.json).Ok? {
      var name := NamePayload(a.raw, a.json).value;
      DeletePayloadIsName(a);
      ExecuteDelete(c, s.rows, name);
      if CanvasStore.DeleteCanvas(s.rows, name).Ok? {
        DeletedRow(c, s, name);
        AfterDelete(c, s.shell, name);
      }
    }
  }

  lemma DeletePayloadIsName(a: Action)
    requires a.CanvasDelete? && NamePayload(a.raw, a.json).Ok?
    ensures NamePayload(a.raw, a.json).value != "" && Trimmed(NamePayload(a.raw, a.json).value)
  {
  }

  lemma DeletedRow(c: Codec, s: Session, name: string)
    requires InStep(c, s) && name != "" && Trimmed(name) && CanvasStore.DeleteCanvas(s.rows, name).Ok?
    ensures var after := CanvasStore.DeleteCanvas(s.rows, name).value;
            var shell := if s.shell.active == name then Cleared() else s.shell;
            && Word(name)
            && Tidy(after) && Mirrors(c, shell, after)
            && Versioned(after, Logged(s.log, IdNamed(s.rows, name, true)))
  {
    hide Consistent, Versioned, CanonicalText, SpaceFree, CanvasStore.DeleteCanvas, TrimLeft, TrimRight;
    DeleteMeaning(s.rows, name);
    var after := CanvasStore.DeleteCanvas(s.rows, name).value;
    var k :| 0 <= k < |s.rows| && s.rows[k].name == Trim(name) && after == s.rows[..k] + s.rows[k + 1..];
    NamedAtOnly(s.rows, k);
    RowRemovedTidy(s.rows, k);
    DroppedVersioned(s.rows, s.log, k);
    if s.shell.active != name {
      RemovedMirrors(c, s, k, after);
    }
  }

  lemma RemovedMirrors(c: Codec, s: Session, k: nat, after: seq<Row>)
    requires Mirrors(c, s.shell, s.rows) && k < |s.rows| && s.rows[k].name != s.shell.active
    requires after == s.rows[..k] + s.rows[k + 1..]
    ensures Mirrors(c, s.shell, after)
  {
    hide CanonicalText;
    if s.shell.saved != "" {
      var j :| 0 <= j < |s.rows| && s.rows[j].name == s.shell.active;
      assert after[if j < k then j else j - 1] == s.rows[j];
      assert forall i :: 0 <= i < |after| ==> after[i] == s.rows[if i < k then i else i + 1];
    }
  }

  // ---------- Every action, every run ----------

  lemma StepInStep(c: Codec, s: Session, a: Action)
    requires Lawful(c) && InStep(c, s) && Admissible(c, s, a)
    ensures InStep(c, Step(c, s, a))
  {
    hide Lawful, Consistent, Mirrors, Versioned, Tidy, Word, Dispatch, Ran, TargetFree, ActionFloats, Subject,
         RenameNames, NamePayload, SpaceFree, Load, Reply;
    DispatchConsistent(c, s.shell, a, LoadFor(s.rows, a), Reply(Ran(c, s, a)));
    if a.SaveCanvas? {
      SaveInStep(c, s);
    } else if a.CanvasNew? {
      NewInStep(c, s, a);
    } else if a.CanvasRename? {
      RenameInStep(c, s, a);
    } else if a.CanvasDelete? {
      DeleteInStep(c, s, a);
    } else {
      QuietInStep(c, s, a);
    }
  }

  lemma {:induction false} RunInStep(c: Codec, s: Session, actions: seq<Action>)
    requires Lawful(c) && InStep(c, s) && AdmissibleRun(c, s, actions)
    ensures InStep(c, RunSession(c, s, actions))
    decreases |actions|
  {
    hide Lawful, InStep, Admissible, Step;
    if actions != [] {
      StepInStep(c, s, actions[0]);
      RunInStep(c, Step(c, s, actions[0]), actions[1..]);
    }
  }

  /**
    From a store with distinct one-word names and a fresh shell, after every admissible
    run: a saved copy in the shell is the canonical form of the stored canvas of the
    active name, and a canvas made in the run has version 1 plus its saves and renames.
   */
  lemma ShellFollowsStore(c: Codec, rows: seq<Row>, actions: seq<Action>)
    requires Lawful(c) && Tidy(rows) && AdmissibleRun(c, Session(EMPTY, rows, []), actions)
    ensures var s := RunSession(c, Session(EMPTY, rows, []), actions);
            && UniqueNames(s.rows) && UniqueIds(s.rows)
            && (s.shell.saved != "" ==>
                  Load(s.rows, s.shell.active).Ok?
                  && CanonicalText(c, Load(s.rows, s.shell.active).value) == Ok(s.shell.saved))
            && (forall i :: 0 <= i < |s.rows| && Revisions(s.log, s.rows[i].id).Some? ==>
                  s.rows[i].version == 1 + Revisions(s.log, s.rows[i].id).value)
  {
    hide Lawful, AdmissibleRun, RunSession, Revisions, CanonicalText, SpaceFree, IsCanonical;
    var start := Session(EMPTY, rows, []);
    assert Versioned(rows, []) by { NothingRevised(); }
    RunInStep(c, start, actions);
    var s := RunSession(c, start, actions);
    if s.shell.saved != "" {
      WordIsTrimmed(s.shell.active);
    }
  }

  lemma NothingRevised()
    ensures forall id :: Revisions([], id) == None
  {
  }

  // ---------- Saving and opening again ----------

  lemma MirroredLoad(c: Codec, sh: Shell, rows: seq<Row>)
    requires Mirrors(c, sh, rows) && sh.saved != "" && Word(sh.active)
    ensures Load(rows, sh.active).Ok? && CanonicalText(c, Load(rows, sh.active).value) == Ok(sh.saved)
  {
    hide CanonicalText;
    WordIsTrimmed(sh.active);
  }

  /** A successful save followed by opening the canvas again shows the draft as it was, now saved. */
  lemma SaveThenOpenRestores(c: Codec, s: Session)
    requires Lawful(c) && InStep(c, s) && CommandOf(c, s.shell, SaveCanvas).Ok?
    requires SaveSpec(c, s.rows, s.shell.active, s.shell.draft).Ok?
    ensures var t := Step(c, s, SaveCanvas);
            Step(c, t, SetCanvas(s.shell.active)).shell == Shell(s.shell.active, s.shell.draft, s.shell.draft, None, Loaded, false)
  {
    hide Lawful, CommandOf, SaveSpec, CanonicalText, SpaceFree, Ran, Consistent, Versioned, Tidy, Mirrors, NamedAt, Load, Check;
    SaveRuns(c, s);
    ActiveDraft(c, s.shell);
    SavedRow(c, s);
    var t := Step(c, s, SaveCanvas);
    assert t.shell == Commit(s.shell);
    MirroredLoad(c, t.shell, t.rows);
    WordIsTrimmed(s.shell.active);
    OpenSaved(c, t.shell, s.shell.active, Load(t.rows, s.shell.active).value, s.shell.draft);
    OpenSendsNothing(c, t, s.shell.active);
  }

  lemma OpenSaved(c: Codec, sh: Shell, name: string, stored: string, text: string)
    requires Lawful(c) && Trim(name) == name && name != "" && CanonicalText(c, stored) == Ok(text)
    ensures SetActive(c, sh, name, Ok(stored)).shell == Shell(name, text, text, None, Loaded, false)
  {
    hide Lawful, CanonicalText, IsCanonical, Trim;
    CanonicalTextIsCanonical(c, stored);
    CanonicalReads(c, text);
  }

  lemma OpenSendsNothing(c: Codec, t: Session, name: string)
    ensures Step(c, t, SetCanvas(name)).shell == SetActive(c, t.shell, name, Load(t.rows, name)).shell
  {
    hide SetActive, Load;
  }

  // ---------- Renaming onto a name in use ----------

  /**
    Renaming onto the name of another canvas goes through. It keeps the shell and the store
    in step, whichever row the lookup picks, exactly when the active canvas is neither of
    the two, or the two rows that now share the name hold the same canvas.
   */
  lemma RenameKeepsMirrorIff(c: Codec, s: Session, k: nat, j: nat, raw: string, renaming: Option<RenamePayload>)
    requires InStep(c, s) && s.shell.saved != ""
    requires k < |s.rows| && j < |s.rows| && k != j
    requires RenameNames(raw, renaming) == Ok((s.rows[k].name, s.rows[j].name))
    ensures var t := Step(c, s, CanvasRename(raw, renaming));
            && Rename(s.rows, s.rows[k].name, s.rows[j].name) == Ok(t.rows)
            && (Mirrors(c, t.shell, t.rows) <==>
                  (s.shell.active == s.rows[k].name || s.shell.active == s.rows[j].name ==>
                     CanonicalText(c, s.rows[k].spec) == CanonicalText(c, s.rows[j].spec)))
  {
    hide Consistent, Versioned, CanonicalText, SpaceFree, Rename, NextVersion, Trim, Step, Ran, RenameNames;
    var a := CanvasRename(raw, renaming);
    WordIsTrimmed(s.rows[k].name);
    WordIsTrimmed(s.rows[j].name);
    RenameMeaning(s.rows, s.rows[k].name, s.rows[j].name);
    RenameRuns(c, s, a);
    RenameRows(c, s, a);
    var after := Rename(s.rows, s.rows[k].name, s.rows[j].name).value;
    var k' :| 0 <= k' < |s.rows| && s.rows[k'].name == s.rows[k].name
              && after == s.rows[k' := Row(s.rows[k'].id, s.rows[j].name, s.rows[k'].spec, NextVersion(s.rows[k'].version))];
    assert k' == k;
    SharedNameMirrorsIff(c, s, k, j, after);
  }

  lemma RenameRows(c: Codec, s: Session, a: Action)
    requires a.CanvasRename? && RenameNames(a.raw, a.renaming).Ok?
    requires var names := RenameNames(a.raw, a.renaming).value;
             Rename(s.rows, names.0, names.1).Ok? && Ran(c, s, a) == CanvasTerminal.Outcome(s.rows, Rename(s.rows, names.0, names.1))
    ensures Step(c, s, a).rows == Rename(s.rows, RenameNames(a.raw, a.renaming).value.0, RenameNames(a.raw, a.renaming).value.1).value
  {
    hide Ran, Rename, RenameNames, Dispatch;
  }

  lemma SharedNameMirrorsIff(c: Codec, s: Session, k: nat, j: nat, after: seq<Row>)
    requires Tidy(s.rows) && Mirrors(c, s.shell, s.rows) && s.shell.saved != ""
    requires k < |s.rows| && j < |s.rows| && k != j && |after| == |s.rows|
    requires after[k].spec == s.rows[k].spec && after[k].name == s.rows[j].name
    requires forall i :: 0 <= i < |s.rows| && i != k ==> after[i] == s.rows[i]
    ensures var shell := if s.shell.active == s.rows[k].name then s.shell.(active := s.rows[j].name, status := Renamed) else s.shell;
            Mirrors(c, shell, after) <==>
              (s.shell.active == s.rows[k].name || s.shell.active == s.rows[j].name ==>
                 CanonicalText(c, s.rows[k].spec) == CanonicalText(c, s.rows[j].spec))
  {
    hide CanonicalText, Word, UniqueIds;
    var m :| 0 <= m < |s.rows| && s.rows[m].name == s.shell.active;
    assert after[j] == s.rows[j];
    assert m != k ==> after[m] == s.rows[m];
  }

  // ---------- Names with white space ----------

  lemma AfterAnyDelete(c: Codec, sh: Shell, name: string)
    requires name != "" && Trimmed(name)
    ensures AfterCommand(c, sh, BuildDelete(name)) == if sh.active == name && SpaceFree(name) then Cleared() else sh
  {
    hide Trim, Lower, HasPrefix, ParseNewCommand, ParseSimpleName, ParseSaveCommand, ParseRenameCommand, ParseDeleteCommand,
         AfterSave, Trimmed, SpaceFree;
    LoweredPrefix(DELETE, name);
    DeleteParsersAgreeIff(name);
  }

  /** Deleting the active canvas removes its row, but the shell lets go of it exactly when its name has no white space. */
  lemma DeletingActiveClearsIff(c: Codec, s: Session, k: nat, raw: string, json: Option<string>)
    requires UniqueIds(s.rows) && UniqueNames(s.rows) && k < |s.rows|
    requires s.shell.active == s.rows[k].name && NamePayload(raw, json) == Ok(s.shell.active)
    ensures var t := Step(c, s, CanvasDelete(raw, json));
            && t.rows == s.rows[..k] + s.rows[k + 1..]
            && (SpaceFree(s.shell.active) ==> t.shell == Cleared())
            && (!SpaceFree(s.shell.active) ==> t.shell == s.shell)
  {
    hide Execute, CanvasStore.DeleteCanvas, AfterCommand, SpaceFree, Trim, NamePayload;
    var name := s.shell.active;
    DeletePayloadIsName(CanvasDelete(raw, json));
    assert Trim(name) == name;
    DeleteMeaning(s.rows, name);
    ExecuteDelete(c, s.rows, name);
    AfterAnyDelete(c, s.shell, name);
  }

  // ---------- A canvas just made ----------

  lemma DraftSpecHasNoCanvas(c: Codec)
    requires c.decode(DRAFT_SPEC).Some? && c.decode(DRAFT_SPEC).value.nodes == []
    ensures CanonicalText(c, DRAFT_SPEC).Err?
  {
    hide Trim;
    TrimmedEnds(DRAFT_SPEC);
  }

  /** A canvas made with "new" holds no nodes, so opening it right away fails and leaves no canvas active. */
  lemma NewCanvasDoesNotOpen(c: Codec, s: Session, name: string, raw: string, json: Option<string>)
    requires NamePayload(raw, json) == Ok(name)
    requires UniqueNames(s.rows) && Word(name) && CreateDraft(s.rows, name).Ok?
    requires c.decode(DRAFT_SPEC).Some? && c.decode(DRAFT_SPEC).value.nodes == []
    ensures var t := Step(c, s, CanvasNew(raw, json));
            && t.rows == CreateDraft(s.rows, name).value
            && Dispatch(c, t.shell, SetCanvas(name), Load(t.rows, name), Missing).fault.Some?
            && Step(c, t, SetCanvas(name)).shell.active == ""
  {
    hide Execute, CreateDraft, AfterCommand, SpaceFree, Trim, CanonicalText, NamePayload;
    WordIsTrimmed(name);
    ExecuteNew(c, s.rows, name);
    CreateDraftMeaning(s.rows, name);
    var after := CreateDraft(s.rows, name).value;
    NamedAtOnly(after, |s.rows|);
    DraftSpecHasNoCanvas(c);
  }
}
