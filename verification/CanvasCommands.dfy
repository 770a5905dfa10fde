/**
  The textual canvas commands: the shell prints them, the terminal reads them, and the
  shell reads them once more to follow what the terminal did.
 */
module CanvasCommands {
  import opened Results
  import opened Text

  const SAVE := "\\canvas save"
  const NEW := "\\canvas new"
  const RENAME := "\\canvas rename"
  const DELETE := "\\canvas delete"
  const CANVAS := "\\canvas"

  datatype CommandError = Usage(command: string)

  // ---------- Words ----------

  // The length of the leading run of characters that are not white space.
  function WordLength(s: string): (n: nat)
    ensures n <= |s|
    ensures SpaceFree(s[..n])
    ensures n < |s| ==> IsSpace(s[n])
  {
    if s == "" || IsSpace(s[0]) then 0
    else
      var n := WordLength(s[1..]);
      assert s[..n + 1] == [s[0]] + s[1..][..n];
      n + 1
  }

  /** strings.Fields: the maximal runs of characters that are not white space. */
  function Fields(s: string): (words: seq<string>)
    ensures forall i :: 0 <= i < |words| ==> words[i] != "" && SpaceFree(words[i])
    decreases |s|
  {
    var t := TrimLeft(s);
    if t == "" then []
    else
      var n := WordLength(t);
      [t[..n]] + Fields(t[n..])
  }

  /** strings.SplitN(s, sep, 2) for a single character. */
  function SplitOnce(s: string, sep: char): (parts: seq<string>)
    ensures |parts| == 1 || |parts| == 2
    ensures |parts| == 1 <==> sep !in s
  {
    if s == "" then [s]
    else if s[0] == sep then ["", s[1..]]
    else
      var rest := SplitOnce(s[1..], sep);
      rest[0 := [s[0]] + rest[0]]
  }

  function TrimCharLeft(s: string, c: char): string {
    if s != "" && s[0] == c then TrimCharLeft(s[1..], c) else s
  }

  function TrimCharRight(s: string, c: char): string {
    if s != "" && s[|s| - 1] == c then TrimCharRight(s[..|s| - 1], c) else s
  }

  /** strings.Trim with a cut set of one character. */
  function TrimChar(s: string, c: char): string {
    TrimCharRight(TrimCharLeft(s, c), c)
  }

  predicate Quoted(s: string) {
    |s| >= 2 && s[0] == s[|s| - 1] && (s[0] == '\'' || s[0] == '"')
  }

  function Unquote(s: string): string {
    if Quoted(s) then TrimChar(s, s[0]) else s
  }

  // ---------- Printing and reading ----------

  datatype SaveCommand = SaveCommand(name: string, spec: string)

  /** buildCanvasSaveCommand: the empty text when there is no name. */
  function BuildSave(name: string, spec: string): string {
    if Trim(name) == "" then "" else SAVE + " " + Trim(name) + " '" + spec + "'"
  }

  function BuildNew(name: string): string { NEW + " " + name }

  function BuildRename(oldName: string, newName: string): string { RENAME + " " + oldName + " " + newName }

  function BuildDelete(name: string): string { DELETE + " " + name }

  // What follows the command words, trimmed.
  function Tail(input: string, command: string): string {
    Trim(TrimPrefix(Trim(input), command))
  }

  /** The shell's parseCanvasSaveCommand. */
  function ParseSaveCommand(input: string): Option<SaveCommand> {
    var raw := Tail(input, SAVE);
    if raw == "" then None
    else
      var parts := SplitOnce(raw, ' ');
      if |parts| != 2 then None
      else
        var name, spec := Trim(parts[0]), Trim(parts[1]);
        if name == "" || spec == "" then None
        else Some(SaveCommand(name, Unquote(spec)))
  }

  /** The terminal's parseCanvasSavePayload. */
  function ParseSavePayload(input: string): Result<SaveCommand, CommandError> {
    var raw := Trim(TrimPrefix(Trim(input), SAVE));
    if raw == "" then Err(Usage(SAVE))
    else
      var parts := SplitOnce(raw, ' ');
      if |parts| != 2 then Err(Usage(SAVE))
      else
        var name := Trim(parts[0]);
        var spec := Trim(parts[1]);
        if name == "" || spec == "" then Err(Usage(SAVE))
        else if |spec| >= 2 && ((spec[0] == '\'' && spec[|spec| - 1] == '\'') || (spec[0] == '"' && spec[|spec| - 1] == '"')) then
          Ok(SaveCommand(name, TrimChar(spec, spec[0])))
        else Ok(SaveCommand(name, spec))
  }

  /** The shell's parseCanvasRenameCommand. */
  function ParseRenameCommand(input: string): Option<(string, string)> {
    var parts := Fields(Tail(input, RENAME));
    if |parts| != 2 then None else Some((parts[0], parts[1]))
  }

  /** The terminal's parseCanvasRenameNames. */
  function ParseRenameNames(input: string): Result<(string, string), CommandError> {
    var raw := Tail(input, RENAME);
    if raw == "" then Err(Usage(RENAME))
    else
      var parts := Fields(raw);
      if |parts| != 2 then Err(Usage(RENAME)) else Ok((parts[0], parts[1]))
  }

  /** The shell's parseCanvasNewCommand: a single word. */
  function ParseNewCommand(input: string): Option<string> {
    var parts := Fields(Tail(input, NEW));
    if |parts| != 1 then None else Some(parts[0])
  }

  /** The shell's parseCanvasSimpleCommand, used for deletion: a single word. */
  function ParseDeleteCommand(input: string): Option<string> {
    var raw := Trim(TrimPrefix(Tail(input, CANVAS), "delete"));
    var parts := Fields(raw);
    if |parts| != 1 then None else Some(parts[0])
  }

  /** The terminal's parseCanvasSimpleName: everything after the command, spaces included. */
  function ParseSimpleName(input: string, command: string): Result<string, CommandError> {
    var name := Tail(input, command);
    if name == "" then Err(Usage(command)) else Ok(name)
  }

  // ---------- Words of a text ----------

  lemma {:induction false} WordLengthOfWord(w: string, rest: string)
    requires SpaceFree(w)
    requires rest == "" || IsSpace(rest[0])
    ensures WordLength(w + rest) == |w|
  {
    if w == "" {
      assert w + rest == rest;
    } else {
      assert (w + rest)[1..] == w[1..] + rest;
      WordLengthOfWord(w[1..], rest);
    }
  }

  /** A word in front of white space, or at the end, is the first field. */
  lemma FieldsOfWord(w: string, rest: string)
    requires w != "" && SpaceFree(w)
    requires rest == "" || IsSpace(rest[0])
    ensures Fields(w + rest) == [w] + Fields(rest)
  {
    WordLengthOfWord(w, rest);
    var s := w + rest;
    assert s[0] == w[0];
    assert TrimLeft(s) == s;
    assert s[..|w|] == w && s[|w|..] == rest;
  }

  lemma FieldsOfSpace(rest: string)
    ensures Fields(" " + rest) == Fields(rest)
  {
    assert (" " + rest)[1..] == rest;
  }

  lemma FieldsOfSingle(w: string)
    requires w != "" && SpaceFree(w)
    ensures Fields(w) == [w]
  {
    FieldsOfWord(w, "");
    assert w + "" == w;
    assert Fields("") == [];
  }

  lemma FieldsOfPair(a: string, b: string)
    requires a != "" && SpaceFree(a) && b != "" && SpaceFree(b)
    ensures Fields(a + " " + b) == [a, b]
  {
    FieldsOfWord(a, " " + b);
    assert a + " " + b == a + (" " + b);
    FieldsOfSpace(b);
    FieldsOfSingle(b);
  }

  /** A trimmed text has one field exactly when it is one word, and then that word is the field. */
  lemma OneFieldIffWord(s: string)
    requires Trimmed(s)
    ensures |Fields(s)| == 1 <==> s != "" && SpaceFree(s)
    ensures |Fields(s)| == 1 ==> Fields(s)[0] == s
  {
    if s != "" {
      assert TrimLeft(s) == s;
      var n := WordLength(s);
      if n < |s| {
        TrimLeftIsSuffix(s[n..]);
        assert !IsSpace(s[n..][|s| - n - 1]);
        assert TrimLeft(s[n..]) != "";
        assert |Fields(s[n..])| >= 1;
      } else {
        assert s[n..] == "" && s[..n] == s;
        assert Fields("") == [];
      }
    }
  }

  lemma {:induction false} SplitOfWord(w: string, sep: char, rest: string)
    requires sep !in w
    ensures SplitOnce(w + [sep] + rest, sep) == [w, rest]
  {
    var s := w + [sep] + rest;
    if w == "" {
      assert s[1..] == rest;
    } else {
      assert s[0] == w[0] && w[0] in w;
      assert s[1..] == w[1..] + [sep] + rest;
      SplitOfWord(w[1..], sep, rest);
      assert [w[0]] + w[1..] == w;
    }
  }

  // ---------- A text in quotes ----------

  lemma UnquoteQuoted(s: string)
    requires s != "" && s[0] != '\'' && s[|s| - 1] != '\''
    ensures Unquote("'" + s + "'") == s
  {
    var q := "'" + s + "'";
    assert q[0] == '\'' && q[|q| - 1] == '\'';
    assert q[1..] == s + "'";
    assert TrimCharLeft(q, '\'') == s + "'" by {
      assert (s + "'")[0] == s[0];
    }
    assert (s + "'")[..|s|] == s;
    assert TrimCharRight(s + "'", '\'') == s;
  }

  // ---------- What follows a printed command ----------

  lemma TrimmedEnds(s: string)
    requires s != "" && !IsSpace(s[0]) && !IsSpace(s[|s| - 1])
    ensures Trim(s) == s
  {
  }

  lemma TailOfPrinted(command: string, rest: string)
    requires command != "" && !IsSpace(command[0])
    requires rest != "" && Trimmed(rest)
    ensures Tail(command + " " + rest, command) == rest
  {
    var s := command + " " + rest;
    assert s[0] == command[0] && s[|s| - 1] == rest[|rest| - 1];
    TrimmedEnds(s);
    assert s == command + (" " + rest);
    PrefixOfConcat(command, " " + rest);
    assert (" " + rest)[1..] == rest;
    assert TrimLeft(" " + rest) == TrimLeft(rest);
    assert TrimLeft(rest) == rest;
  }

  lemma WordIsTrimmed(w: string)
    requires SpaceFree(w)
    ensures Trimmed(w) && Trim(w) == w
  {
  }

  /** A stored text: what an encoded canvas looks like from outside. */
  predicate Braced(spec: string) {
    |spec| >= 2 && spec[0] == '{' && spec[|spec| - 1] == '}'
  }

  lemma SaveTail(name: string, spec: string)
    requires name != "" && SpaceFree(name) && Braced(spec)
    ensures Tail(BuildSave(name, spec), SAVE) == name + " '" + spec + "'"
  {
    WordIsTrimmed(name);
    var rest := name + " '" + spec + "'";
    assert rest[0] == name[0] && rest[|rest| - 1] == '\'';
    assert BuildSave(name, spec) == SAVE + " " + rest;
    assert SAVE[0] == '\\';
    TailOfPrinted(SAVE, rest);
  }

  lemma SaveParts(name: string, spec: string)
    requires name != "" && SpaceFree(name) && Braced(spec)
    ensures SplitOnce(name + " '" + spec + "'", ' ') == [name, "'" + spec + "'"]
    ensures Trim("'" + spec + "'") == "'" + spec + "'"
    ensures Unquote("'" + spec + "'") == spec
  {
    forall i | 0 <= i < |name|
      ensures name[i] != ' '
    {
      assert !IsSpace(name[i]);
    }
    assert name + " '" + spec + "'" == name + [' '] + ("'" + spec + "'");
    SplitOfWord(name, ' ', "'" + spec + "'");
    TrimmedEnds("'" + spec + "'");
    UnquoteQuoted(spec);
  }

  // ---------- The two readers of a command ----------

  /** On every input the shell and the terminal read a save command alike. */
  lemma SaveParsersAgree(input: string)
    ensures ParseSaveCommand(input).Some? <==> ParseSavePayload(input).Ok?
    ensures ParseSaveCommand(input).Some? ==> ParseSaveCommand(input).value == ParseSavePayload(input).value
  {
  }

  /** A printed save command is read back unchanged by both readers. */
  lemma SaveRoundTrip(name: string, spec: string)
    requires name != "" && SpaceFree(name) && Braced(spec)
    ensures ParseSaveCommand(BuildSave(name, spec)) == Some(SaveCommand(name, spec))
    ensures ParseSavePayload(BuildSave(name, spec)) == Ok(SaveCommand(name, spec))
  {
    hide SplitOnce, Unquote, Tail, Trim, BuildSave;
    SaveTail(name, spec);
    SaveParts(name, spec);
    WordIsTrimmed(name);
    SaveParsersAgree(BuildSave(name, spec));
  }

  /** On every input the shell and the terminal read a rename command alike. */
  lemma RenameParsersAgree(input: string)
    ensures ParseRenameCommand(input).Some? <==> ParseRenameNames(input).Ok?
    ensures ParseRenameCommand(input).Some? ==> ParseRenameCommand(input).value == ParseRenameNames(input).value
  {
    hide Tail;
    assert Fields("") == [];
  }

  lemma RenameRoundTrip(oldName: string, newName: string)
    requires oldName != "" && SpaceFree(oldName) && newName != "" && SpaceFree(newName)
    ensures ParseRenameCommand(BuildRename(oldName, newName)) == Some((oldName, newName))
    ensures ParseRenameNames(BuildRename(oldName, newName)) == Ok((oldName, newName))
  {
    var rest := oldName + " " + newName;
    assert rest[0] == oldName[0] && rest[|rest| - 1] == newName[|newName| - 1];
    assert BuildRename(oldName, newName) == RENAME + " " + rest;
    TailOfPrinted(RENAME, rest);
    FieldsOfPair(oldName, newName);
    RenameParsersAgree(BuildRename(oldName, newName));
  }

  /**
    The terminal accepts any name after "new"; the shell follows only one-word names.
    They agree exactly when the name holds no white space.
   */
  lemma NewParsersAgreeIff(input: string)
    ensures ParseNewCommand(input).Some? ==> ParseSimpleName(input, NEW) == Ok(ParseNewCommand(input).value)
    ensures ParseSimpleName(input, NEW).Ok? ==>
              (ParseNewCommand(input).Some? <==> SpaceFree(ParseSimpleName(input, NEW).value))
  {
    OneFieldIffWord(Tail(input, NEW));
  }

  /** A printed deletion: the terminal reads the whole name, the shell only a single word. */
  lemma DeleteParsersAgreeIff(name: string)
    requires name != "" && Trimmed(name)
    ensures ParseSimpleName(BuildDelete(name), DELETE) == Ok(name)
    ensures ParseDeleteCommand(BuildDelete(name)) == if SpaceFree(name) then Some(name) else None
  {
    hide TrimPrefix, Trim, Fields, SpaceFree;
    TailOfPrinted(DELETE, name);
    DeleteTail(name);
    OneFieldIffWord(name);
  }

  lemma DeleteTail(name: string)
    requires name != "" && Trimmed(name)
    ensures Trim(TrimPrefix(Tail(BuildDelete(name), CANVAS), "delete")) == name
  {
    hide Trim, TrimPrefix;
    var rest := "delete" + " " + name;
    assert rest[0] == 'd' && rest[|rest| - 1] == name[|name| - 1];
    assert BuildDelete(name) == CANVAS + " " + rest;
    TailOfPrinted(CANVAS, rest);
    TailOfPrinted("delete", name);
    TrimmedEnds(rest);
  }

  lemma NewRoundTrip(name: string)
    requires name != "" && Trimmed(name)
    ensures ParseSimpleName(BuildNew(name), NEW) == Ok(name)
    ensures ParseNewCommand(BuildNew(name)) == if SpaceFree(name) then Some(name) else None
  {
    TailOfPrinted(NEW, name);
    OneFieldIffWord(name);
  }
}
