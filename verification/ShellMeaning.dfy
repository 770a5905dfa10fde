/**
  What each dispatched action leaves in the shell, all fields at once, told by the canvases
  that the texts encode.
 */
module ShellMeaning {
  import opened Results
  import opened Text
  import opened CanvasModel
  import opened CanvasNormalForm
  import opened CanvasEdits
  import opened CanvasCommands
  import opened CanvasText
  import opened CanvasStore
  import opened CanvasTerminal
  import opened ShellModel
  import opened ShellRuns
  import opened CanvasSession

  // ---------- Canonical texts ----------

  /** The canvas that a text stands for, if it stands for one. */
  function CanvasIn(c: Codec, raw: string): Option<CanvasSpec> {
    if Trim(raw) == "" || c.decode(Trim(raw)).None? || NormalizeSpec(c.decode(Trim(raw)).value).Err? then None
    else Some(NormalizeSpec(c.decode(Trim(raw)).value).value)
  }

  /** A text is accepted exactly when it stands for a canvas, and its canonical form is the one text of that canvas. */
  lemma CanonicalTextMeaning(c: Codec, raw: string)
    requires Lawful(c)
    ensures CanonicalText(c, raw).Ok? <==> CanvasIn(c, raw).Some?
    ensures CanonicalText(c, raw).Ok? ==>
              && CanonicalText(c, raw).value == c.encode(CanvasIn(c, raw).value)
              && c.decode(CanonicalText(c, raw).value) == CanvasIn(c, raw)
  {
    hide NormalizeSpec, Floats, TrimLeft, TrimRight;
    if CanvasIn(c, raw).Some? {
      var s := c.decode(Trim(raw)).value;
      NormalizeFloats(c, s);
      WellFormedIsFixpoint(s);
      WellFormedIsFixpoint(NormalizeSpec(s).value);
      hide WellFormed;
    }
  }

  lemma CanonicalIsValid(c: Codec, raw: string)
    requires Lawful(c) && CanonicalText(c, raw).Ok?
    ensures CanonicalText(c, raw).value != "" && Check(c, CanonicalText(c, raw).value) == None
  {
    hide Lawful, CanonicalText, IsCanonical, Validate;
    CanonicalTextIsCanonical(c, raw);
    CanonicalReads(c, CanonicalText(c, raw).value);
  }

  // ---------- Opening, drafting, reverting, clearing ----------

  /** Opening a canvas: the four ways it can go, with all fields. */
  lemma OpenMeaning(c: Codec, sh: Shell, name: string, loaded: Result<string, Fault>, outcome: Outcome)
    requires Lawful(c)
    ensures var r := Dispatch(c, sh, SetCanvas(name), loaded, outcome);
            if Trim(name) == "" then r == Stepped(Shell("", "", "", None, NoneSelected, false), None)
            else if loaded.Err? then
              r == Stepped(Shell(Trim(name), "", "", Some(loaded.error), LoadFailed(loaded.error), false), Some(loaded.error))
            else if CanvasIn(c, loaded.value).None? then
              r.fault.Some? && r.shell.status.NormalizeFailed? && r.shell == Shell("", "", "", None, r.shell.status, false)
            else
              var text := c.encode(CanvasIn(c, loaded.value).value);
              r == Stepped(Shell(Trim(name), text, text, None, Loaded, false), None)
  {
    hide Lawful, CanonicalText, CanvasIn, Trim, Check;
    if loaded.Ok? {
      CanonicalTextMeaning(c, loaded.value);
      if CanonicalText(c, loaded.value).Ok? {
        CanonicalIsValid(c, loaded.value);
      }
    }
  }

  /**
    Setting the draft succeeds exactly when a canvas is active and the text stands for a
    canvas. Then the draft is the text of that canvas, dirty if it differs from the saved
    one; otherwise nothing changes.
   */
  lemma SetDraftMeaning(c: Codec, sh: Shell, spec: string, loaded: Result<string, Fault>, outcome: Outcome)
    requires Lawful(c)
    ensures var r := Dispatch(c, sh, SetCanvasDraft(spec), loaded, outcome);
            if sh.active != "" && CanvasIn(c, spec).Some? then
              var text := c.encode(CanvasIn(c, spec).value);
              r == Stepped(Shell(sh.active, text, sh.saved, None, DraftUpdated, text != sh.saved), None)
            else r.fault.Some? && r.shell == sh
  {
    hide Lawful, CanonicalText, CanvasIn, Check;
    CanonicalTextMeaning(c, spec);
    if CanonicalText(c, spec).Ok? {
      CanonicalIsValid(c, spec);
    }
  }

  /**
    A drawing action succeeds exactly when there is a draft and the edit its payload asks
    for succeeds on the canvas of the draft. Then the draft is the text of the edited
    canvas; otherwise nothing changes.
   */
  lemma EditActionMeaning(c: Codec, sh: Shell, a: Action, loaded: Result<string, Fault>, outcome: Outcome)
    requires Lawful(c) && Consistent(c, sh) && ActionFloats(c, a) && IsEdit(a)
    ensures var r := Dispatch(c, sh, a, loaded, outcome);
            if sh.draft != "" && c.decode(sh.draft).Some? && Asked(c.decode(sh.draft).value, a).Ok? then
              && r.fault == None
              && c.decode(r.shell.draft) == Some(Asked(c.decode(sh.draft).value, a).value)
              && r.shell == Shell(sh.active, r.shell.draft, sh.saved, None, DraftUpdated, r.shell.draft != sh.saved)
            else r.fault.Some? && r.shell == sh
    ensures sh.draft != "" ==> c.decode(sh.draft).Some?
  {
    hide Lawful, IsCanonical, Asked, EditOf, EditDraft, EditFloats, ParseText, ApplyEdit, Dispatch;
    EditsAreDispatched(c, sh, a, loaded, outcome);
    if sh.draft != "" {
      DraftDecodes(c, sh.draft);
      PayloadsAreFaithful(c.decode(sh.draft).value, a);
    }
    if EditOf(a).Ok? {
      var e := EditOf(a).value;
      EditDraftMeaning(c, sh, e);
      var r := EditDraft(c, sh, e);
      if r.fault.None? {
        EditDraftConsistent(c, sh, e);
        EditedNotEmpty(c, sh, e);
        DraftDecodes(c, r.shell.draft);
      }
    }
  }

  lemma EditsAreDispatched(c: Codec, sh: Shell, a: Action, loaded: Result<string, Fault>, outcome: Outcome)
    requires IsEdit(a)
    ensures Dispatch(c, sh, a, loaded, outcome) == if EditOf(a).Err? then Stepped(sh, Some(EditOf(a).error)) else EditDraft(c, sh, EditOf(a).value)
  {
    hide EditOf, EditDraft;
  }

  lemma DraftDecodes(c: Codec, draft: string)
    requires Lawful(c) && IsCanonical(c, draft)
    ensures c.decode(draft).Some? && ParseText(c, draft) == Ok(c.decode(draft).value)
  {
    hide WellFormed, Floats, ParseText;
    var s :| WellFormed(s) && Floats(c, s) && draft == c.encode(s);
    EncodedReads(c, s);
  }

  lemma EditedNotEmpty(c: Codec, sh: Shell, e: Edit)
    requires Lawful(c) && Consistent(c, sh) && EditFloats(c, e) && EditDraft(c, sh, e).fault.None?
    requires ParseText(c, EditDraft(c, sh, e).shell.draft).Ok?
    ensures EditDraft(c, sh, e).shell.draft != ""
  {
    hide Lawful, Consistent, EditDraft, EditFloats;
    assert Trim("") == "";
  }

  /** Reverting needs an active canvas and brings the saved text back; clearing empties every field. */
  lemma RevertAndClearMeaning(c: Codec, sh: Shell, loaded: Result<string, Fault>, outcome: Outcome)
    requires Lawful(c) && Consistent(c, sh)
    ensures var r := Dispatch(c, sh, RevertCanvas, loaded, outcome);
            if sh.active == "" then r.fault.Some? && r.shell == sh
            else
              && r.fault == None && r.shell.active == sh.active && r.shell.draft == sh.saved && r.shell.saved == sh.saved
              && !r.shell.dirty && r.shell.status == DraftReverted && (r.shell.validation.None? <==> sh.saved != "")
    ensures Dispatch(c, sh, ClearCanvas, loaded, outcome) == Stepped(Shell("", "", "", None, NoneSelected, false), None)
  {
    hide Lawful, IsCanonical, Check;
    CheckCanonical(c, sh.saved);
  }

  // ---------- Saving ----------

  /** Saving sends the draft under the active name, in quotes; it is refused exactly when there is no draft. */
  lemma SaveSends(c: Codec, sh: Shell)
    requires Lawful(c) && Consistent(c, sh) && Trim(sh.active) == sh.active
    ensures CommandOf(c, sh, SaveCanvas).Ok? <==> sh.draft != ""
    ensures sh.draft != "" ==> CommandOf(c, sh, SaveCanvas) == Ok("\\canvas save " + sh.active + " '" + sh.draft + "'")
  {
    hide Lawful, IsCanonical, Trim;
    assert SAVE + " " == "\\canvas save ";
  }

  /** A saved answer makes the draft the saved copy; a failed one changes the status only. */
  lemma SaveAnswered(c: Codec, sh: Shell, loaded: Result<string, Fault>, isError: bool, message: string, unwritten: bool)
    requires CommandOf(c, sh, SaveCanvas).Ok?
    ensures var r := Dispatch(c, sh, SaveCanvas, loaded, Answered(isError, message, unwritten));
            && r.fault == None
            && (!isError ==> r.shell == Shell(sh.active, sh.draft, sh.draft, sh.validation, Saved, false))
            && (isError ==> r.shell.(status := sh.status) == sh)
  {
    hide CommandOf;
  }

  /**
    Saving the open canvas, where the store has it: its row then holds the draft and one
    more version, no other row changes, and the shell is clean.
   */
  lemma SaveStores(c: Codec, s: Session, k: nat)
    requires Lawful(c) && InStep(c, s) && s.shell.draft != "" && k < |s.rows| && s.rows[k].name == s.shell.active
    ensures Step(c, s, SaveCanvas).rows ==
              s.rows[k := Row(s.rows[k].id, s.shell.active, s.shell.draft, NextVersion(s.rows[k].version))]
    ensures Step(c, s, SaveCanvas).shell == Shell(s.shell.active, s.shell.draft, s.shell.draft, None, Saved, false)
  {
    hide Lawful, CommandOf, SaveSpec, CanonicalText, SpaceFree, CanvasSession.Ran, IsCanonical, NextVersion, Versioned, Mirrors;
    assert Trim("") == "";
    WordOrNothing(s.shell.active);
    SaveSends(c, s.shell);
    SaveRuns(c, s);
    ActiveDraft(c, s.shell);
    SaveMeaning(c, s.rows, s.shell.active, s.shell.draft);
    var after := SaveSpec(c, s.rows, s.shell.active, s.shell.draft).value;
    var m :| 0 <= m < |s.rows| && s.rows[m].name == Trim(s.shell.active) && after ==
      s.rows[m := Row(s.rows[m].id, s.rows[m].name, CanonicalText(c, s.shell.draft).value, NextVersion(s.rows[m].version))];
    assert m == k;
  }

  lemma WordOrNothing(name: string)
    requires name == "" || Word(name)
    ensures Trim(name) == name
  {
    if name != "" {
      WordIsTrimmed(name);
    }
  }

  /** What the other three commands do to the store, whatever payload carries their names. */
  lemma CommandsReachStore(c: Codec, s: Session, raw: string, json: Option<string>, renaming: Option<RenamePayload>)
    requires InStep(c, s)
    ensures NamePayload(raw, json).Ok? && SpaceFree(NamePayload(raw, json).value) ==>
              var name := NamePayload(raw, json).value;
              var made, gone := CreateDraft(s.rows, name), CanvasStore.DeleteCanvas(s.rows, name);
              && Step(c, s, CanvasNew(raw, json)).rows == (if made.Ok? then made.value else s.rows)
              && Step(c, s, CanvasDelete(raw, json)).rows == (if gone.Ok? then gone.value else s.rows)
    ensures RenameNames(raw, renaming).Ok? && SpaceFree(RenameNames(raw, renaming).value.0) && SpaceFree(RenameNames(raw, renaming).value.1) ==>
              var renamed := Rename(s.rows, RenameNames(raw, renaming).value.0, RenameNames(raw, renaming).value.1);
              Step(c, s, CanvasRename(raw, renaming)).rows == if renamed.Ok? then renamed.value else s.rows
  {
    hide Execute, CreateDraft, CanvasStore.DeleteCanvas, Rename, SpaceFree, NamePayload, RenameNames, InStep, Dispatch;
    if NamePayload(raw, json).Ok? {
      PayloadIsName(CanvasNew(raw, json));
      if SpaceFree(NamePayload(raw, json).value) {
        ExecuteNew(c, s.rows, NamePayload(raw, json).value);
        ExecuteDelete(c, s.rows, NamePayload(raw, json).value);
      }
    }
    if RenameNames(raw, renaming).Ok? && SpaceFree(RenameNames(raw, renaming).value.0) && SpaceFree(RenameNames(raw, renaming).value.1) {
      RenamePayloadNames(raw, renaming);
      ExecuteRename(c, s.rows, RenameNames(raw, renaming).value.0, RenameNames(raw, renaming).value.1);
    }
  }

  // ---------- Payloads that name canvases ----------

  /** A name may come as text or as JSON, a pair of names as two words or as JSON; space around them does not matter. */
  lemma NamePayloadsMeaning(raw: string, name: string, oldName: string, newName: string)
    ensures NamePayload(raw, Some(name)) == if Trim(name) == "" then Err(BadPayload) else Ok(Trim(name))
    ensures NamePayload(raw, None) == if Trim(raw) == "" then Err(BadPayload) else Ok(Trim(raw))
    ensures RenameNames(raw, Some(RenamePayload(oldName, newName))) ==
              if Trim(oldName) == "" || Trim(newName) == "" then Err(BadPayload) else Ok((Trim(oldName), Trim(newName)))
    ensures Word(oldName) && Word(newName) ==> RenameNames(oldName + " " + newName, None) == Ok((oldName, newName))
    ensures Word(name) ==> RenameNames(name, None).Err?
  {
    hide Trim, CanvasCommands.Fields;
    if Word(oldName) && Word(newName) {
      TwoWords(oldName, newName);
    }
    if Word(name) {
      WordIsTrimmed(name);
      OneWord(name);
    }
  }

  lemma OneWord(w: string)
    requires Word(w)
    ensures CanvasCommands.Fields(w) == [w]
  {
    hide CanvasCommands.Fields;
    FieldsOfWord(w, "");
    assert w + "" == w;
    NoFields();
  }

  lemma NoFields()
    ensures CanvasCommands.Fields("") == []
  {
  }

  lemma TwoWords(a: string, b: string)
    requires Word(a) && Word(b)
    ensures Trim(a + " " + b) == a + " " + b && CanvasCommands.Fields(a + " " + b) == [a, b]
  {
    hide CanvasCommands.Fields, Trim;
    var t := a + " " + b;
    assert t[0] == a[0] && t[|t| - 1] == b[|b| - 1];
    assert Trimmed(t);
    TrimmedStays(t);
    assert t == a + (" " + b);
    assert (" " + b)[0] == ' ';
    FieldsOfWord(a, " " + b);
    FieldsOfSpace(b);
    OneWord(b);
  }

  lemma TrimmedStays(t: string)
    requires Trimmed(t)
    ensures Trim(t) == t
  {
  }

  // ---------- The console ----------

  /**
    Toggling turns the console over; setting it shows it exactly for "true", "on" and "1",
    case and space aside; Escape hides it; F12 turns the shared one over, any other key is
    refused if there is one. The shared console always follows.
   */
  lemma ConsoleMeaning(console: Console, payload: string, key: string, kind: string)
    requires InSync(console)
    ensures DispatchConsole(console, ToggleConsole) == Shown(Console(!console.visible, if console.shared.Some? then Some(!console.visible) else None), None)
    ensures var r := DispatchConsole(console, SetConsoleState(payload));
            && r.fault == None && InSync(r.console) && (r.console.shared.Some? <==> console.shared.Some?)
            && (r.console.visible <==> Lower(Trim(payload)) in {"true", "on", "1"})
    ensures var r := DispatchConsole(console, Shortcut(key));
            if Lower(key) == "escape" then
              r.fault == None && !r.console.visible && InSync(r.console) && (r.console.shared.Some? <==> console.shared.Some?)
            else if console.shared.None? then r == Shown(console, None)
            else if Upper(Trim(key)) in {"F12", "VK_F12"} then r == Shown(Console(!console.visible, Some(!console.visible)), None)
            else r.fault.Some? && r.console == console
    ensures DispatchConsole(console, Unsupported(kind)).fault.Some? && DispatchConsole(console, Unsupported(kind)).console == console
  {
    hide Trim, Upper;
    assert Lower("true") == "true" && Lower("on") == "on" && Lower("1") == "1" && Lower("Escape") == "escape";
    hide Lower;
  }
}
