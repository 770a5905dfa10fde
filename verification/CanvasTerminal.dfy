/**
  The canvas service over its table, and the terminal that reads a command text and has
  the service carry it out.
 */
module CanvasTerminal {
  import opened Results
  import opened Text
  import opened CanvasCommands
  import opened CanvasText
  import opened CanvasStore

  class CanvasArtifactService {
    var rows: seq<Row>

    constructor ()
      ensures rows == []
    {
      rows := [];
    }

    /** The loop tries one id after another; an insert fails exactly on an id already used. */
    method CreateDraftCanvas(raw: string) returns (fault: Option<StoreError>)
      modifies this
      ensures match CreateDraft(old(rows), raw)
              case Ok(after) => fault == None && rows == after
              case Err(e) => fault == Some(e) && rows == old(rows)
    {
      hide Trim, Slug, Sql.Decimal, IdUsed;
      var name := Trim(raw);
      if name == "" {
        return Some(NameRequired);
      }
      if NamedAt(rows, name).Some? {
        return Some(AlreadyExists(name));
      }
      var id := "canvas-" + Slug(name);
      for attempt := 0 to MAX_ATTEMPTS
        invariant rows == old(rows)
        invariant attempt < MAX_ATTEMPTS ==> id == CandidateId(name, attempt)
        invariant TryCreate(rows, name, 0) == TryCreate(rows, name, attempt)
      {
        if !IdUsed(rows, id) {
          rows := rows + [Row(id, name, DRAFT_SPEC, 1)];
          return None;
        }
        id := "canvas-" + Slug(name) + "-" + Sql.Decimal(attempt + 1);
      }
      return Some(NoFreeId);
    }

    method RenameCanvas(oldName: string, newName: string) returns (fault: Option<StoreError>)
      modifies this
      ensures match Rename(old(rows), oldName, newName)
              case Ok(after) => fault == None && rows == after
              case Err(e) => fault == Some(e) && rows == old(rows)
    {
      hide Trim, Update;
      if Trim(oldName) == "" || Trim(newName) == "" {
        return Some(NameRequired);
      }
      var found := FindByName(rows, oldName);
      if found.Err? {
        return Some(found.error);
      }
      var row := rows[found.value];
      row := row.(name := Trim(newName));
      row := row.(version := NextVersion(row.version));
      rows := Update(rows, row);
      return None;
    }

    method DeleteCanvas(name: string) returns (fault: Option<StoreError>)
      modifies this
      ensures match CanvasStore.DeleteCanvas(old(rows), name)
              case Ok(after) => fault == None && rows == after
              case Err(e) => fault == Some(e) && rows == old(rows)
    {
      hide Trim, Delete;
      var found := FindByName(rows, name);
      if found.Err? {
        return Some(found.error);
      }
      rows := Delete(rows, rows[found.value].id);
      return None;
    }

    method SaveCanvasSpec(c: Codec, name: string, specJSON: string) returns (fault: Option<StoreError>)
      modifies this
      ensures match SaveSpec(c, old(rows), name, specJSON)
              case Ok(after) => fault == None && rows == after
              case Err(e) => fault == Some(e) && rows == old(rows)
    {
      hide Trim, Update, CanonicalText;
      if Trim(name) == "" || Trim(specJSON) == "" {
        return Some(SpecMissing);
      }
      var normalized := CanonicalText(c, specJSON);
      if normalized.Err? {
        return Some(BadSpec(normalized.error));
      }
      var found := FindByName(rows, name);
      if found.Err? {
        return Some(found.error);
      }
      var row := rows[found.value];
      row := row.(version := NextVersion(row.version));
      row := row.(spec := normalized.value);
      rows := Update(rows, row);
      return None;
    }

    /**
      handleBackslashCommand on the four commands that change canvases; handled is false
      for every other input, which this model leaves out.
     */
    method RunCanvasCommand(c: Codec, input: string) returns (handled: bool, isError: bool)
      modifies this
      ensures match Execute(c, old(rows), input)
              case None => !handled && rows == old(rows)
              case Some(ran) => handled && rows == ran.rows && isError == ran.isError
    {
      hide Trim, Lower, CanvasCommands.Fields, ParseSavePayload, ParseRenameNames, ParseSimpleName, CreateDraft, Rename,
           CanvasStore.DeleteCanvas, SaveSpec;
      isError := true;
      var words := CanvasCommands.Fields(Trim(input));
      if |words| < 2 || Lower(words[0]) != CANVAS {
        return false, false;
      }
      var verb := Lower(words[1]);
      var fault: Option<StoreError>;
      if verb == "new" {
        var name := ParseSimpleName(Trim(input), NEW);
        if name.Err? {
          return true, true;
        }
        fault := CreateDraftCanvas(name.value);
      } else if verb == "rename" {
        var names := ParseRenameNames(Trim(input));
        if names.Err? {
          return true, true;
        }
        fault := RenameCanvas(names.value.0, names.value.1);
      } else if verb == "delete" {
        var name := ParseSimpleName(Trim(input), DELETE);
        if name.Err? {
          return true, true;
        }
        fault := DeleteCanvas(name.value);
      } else if verb == "save" {
        var payload := ParseSavePayload(Trim(input));
        if payload.Err? {
          return true, true;
        }
        fault := SaveCanvasSpec(c, payload.value.name, payload.value.spec);
      } else {
        return false, false;
      }
      return true, fault.Some?;
    }
  }

  // ---------- The terminal as a function ----------

  datatype Ran = Ran(rows: seq<Row>, isError: bool)

  function Outcome(rows: seq<Row>, r: Result<seq<Row>, StoreError>): Option<Ran> {
    match r
    case Ok(after) => Some(Ran(after, false))
    case Err(_) => Some(Ran(rows, true))
  }

  /** What a command text does to the table; None for texts that are not one of the four commands. */
  function Execute(c: Codec, rows: seq<Row>, raw: string): Option<Ran> {
    var input := Trim(raw);
    var words := CanvasCommands.Fields(input);
    if |words| < 2 || Lower(words[0]) != CANVAS then None
    else
      var verb := Lower(words[1]);
      if verb == "new" then
        match ParseSimpleName(input, NEW)
        case Err(_) => Some(Ran(rows, true))
        case Ok(name) => Outcome(rows, CreateDraft(rows, name))
      else if verb == "rename" then
        match ParseRenameNames(input)
        case Err(_) => Some(Ran(rows, true))
        case Ok(names) => Outcome(rows, Rename(rows, names.0, names.1))
      else if verb == "delete" then
        match ParseSimpleName(input, DELETE)
        case Err(_) => Some(Ran(rows, true))
        case Ok(name) => Outcome(rows, CanvasStore.DeleteCanvas(rows, name))
      else if verb == "save" then
        match ParseSavePayload(input)
        case Err(_) => Some(Ran(rows, true))
        case Ok(cmd) => Outcome(rows, SaveSpec(c, rows, cmd.name, cmd.spec))
      else None
  }

  // ---------- What the printed commands do ----------

  lemma VerbOf(verb: string, rest: string)
    requires verb in {"new", "rename", "delete", "save"}
    requires rest != "" && Trimmed(rest)
    ensures var input := CANVAS + " " + verb + " " + rest;
            && Trim(input) == input
            && |CanvasCommands.Fields(input)| >= 2
            && Lower(CanvasCommands.Fields(input)[0]) == CANVAS
            && Lower(CanvasCommands.Fields(input)[1]) == verb
  {
    hide CanvasCommands.Fields, Trim;
    var input := CANVAS + " " + verb + " " + rest;
    assert input[0] == '\\' && input[|input| - 1] == rest[|rest| - 1];
    TrimmedEnds(input);
    var tail := " " + verb + " " + rest;
    assert input == CANVAS + tail;
    assert tail[0] == ' ';
    FieldsOfWord(CANVAS, tail);
    var words := verb + (" " + rest);
    assert tail == " " + words;
    FieldsOfSpace(words);
    assert (" " + rest)[0] == ' ';
    FieldsOfWord(verb, " " + rest);
    assert Lower(CANVAS) == CANVAS;
    assert Lower(verb) == verb;
  }

  lemma ExecuteNew(c: Codec, rows: seq<Row>, name: string)
    requires name != "" && SpaceFree(name)
    ensures Execute(c, rows, BuildNew(name)) == Outcome(rows, CreateDraft(rows, name))
  {
    hide CanvasCommands.Fields, Trim, Lower, ParseSimpleName, ParseNewCommand, CreateDraft, Trimmed;
    WordIsTrimmed(name);
    assert BuildNew(name) == CANVAS + " " + "new" + " " + name;
    VerbOf("new", name);
    NewRoundTrip(name);
  }

  lemma ExecuteRename(c: Codec, rows: seq<Row>, oldName: string, newName: string)
    requires oldName != "" && SpaceFree(oldName) && newName != "" && SpaceFree(newName)
    ensures Execute(c, rows, BuildRename(oldName, newName)) == Outcome(rows, Rename(rows, oldName, newName))
  {
    hide CanvasCommands.Fields, Trim, Lower, ParseRenameNames, ParseRenameCommand, Rename;
    var rest := oldName + " " + newName;
    assert rest[0] == oldName[0] && rest[|rest| - 1] == newName[|newName| - 1];
    assert BuildRename(oldName, newName) == CANVAS + " " + "rename" + " " + rest;
    VerbOf("rename", rest);
    RenameRoundTrip(oldName, newName);
  }

  lemma ExecuteDelete(c: Codec, rows: seq<Row>, name: string)
    requires name != "" && Trimmed(name)
    ensures Execute(c, rows, BuildDelete(name)) == Outcome(rows, CanvasStore.DeleteCanvas(rows, name))
  {
    hide CanvasCommands.Fields, Trim, Lower, ParseSimpleName, ParseDeleteCommand, CanvasStore.DeleteCanvas;
    assert BuildDelete(name) == CANVAS + " " + "delete" + " " + name;
    VerbOf("delete", name);
    DeleteParsersAgreeIff(name);
  }

  lemma ExecuteSave(c: Codec, rows: seq<Row>, name: string, spec: string)
    requires name != "" && SpaceFree(name) && Braced(spec)
    ensures Execute(c, rows, BuildSave(name, spec)) == Outcome(rows, SaveSpec(c, rows, name, spec))
  {
    hide CanvasCommands.Fields, Trim, Lower, ParseSavePayload, ParseSaveCommand, SaveSpec;
    WordIsTrimmed(name);
    var rest := name + " '" + spec + "'";
    assert rest[0] == name[0] && rest[|rest| - 1] == '\'';
    assert BuildSave(name, spec) == CANVAS + " " + "save" + " " + rest;
    VerbOf("save", rest);
    SaveRoundTrip(name, spec);
  }
}
