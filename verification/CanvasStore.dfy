/**
  The stored canvases: a table of rows keyed by id, looked up by name, and the service
  that creates, renames, deletes and saves them.
 */
module CanvasStore {
  import opened Results
  import opened Text
  import opened CanvasText
  import Sql

  const MAX_ATTEMPTS := 10
  const DRAFT_SPEC := "{\"nodes\":[],\"edges\":[]}"

  datatype Row = Row(id: string, name: string, spec: string, version: int)

  datatype StoreError =
    | NameRequired
    | SpecMissing
    | NotFound(name: string)
    | AlreadyExists(name: string)
    | NoFreeId
    | BadSpec(text: TextFault)

  // ---------- The table ----------

  /** The first row with this name; the query gives no other order to rows that share one. */
  function NamedAt(rows: seq<Row>, name: string): (r: Option<nat>)
    ensures r.Some? ==> r.value < |rows| && rows[r.value].name == name
    ensures r.None? <==> forall i :: 0 <= i < |rows| ==> rows[i].name != name
  {
    if rows == [] then None
    else if rows[0].name == name then Some(0)
    else match NamedAt(rows[1..], name) case None => None case Some(k) => Some(k + 1)
  }

  /** FindByName */
  function FindByName(rows: seq<Row>, name: string): Result<nat, StoreError> {
    if Trim(name) == "" then Err(NameRequired)
    else match NamedAt(rows, Trim(name)) case None => Err(NotFound(Trim(name))) case Some(k) => Ok(k)
  }

  predicate IdUsed(rows: seq<Row>, id: string) {
    exists i :: 0 <= i < |rows| && rows[i].id == id
  }

  /** UPDATE ... WHERE id = ?: every row with the id of this one becomes it. */
  function Update(rows: seq<Row>, row: Row): (r: seq<Row>)
    ensures |r| == |rows|
  {
    seq(|rows|, i requires 0 <= i < |rows| => if rows[i].id == row.id then row else rows[i])
  }

  /** DELETE ... WHERE id = ? */
  function Delete(rows: seq<Row>, id: string): seq<Row> {
    if rows == [] then []
    else if rows[0].id == id then Delete(rows[1..], id)
    else [rows[0]] + Delete(rows[1..], id)
  }

  predicate UniqueIds(rows: seq<Row>) {
    forall i, j :: 0 <= i < j < |rows| ==> rows[i].id != rows[j].id
  }

  predicate UniqueNames(rows: seq<Row>) {
    forall i, j :: 0 <= i < j < |rows| ==> rows[i].name != rows[j].name
  }

  // ---------- Ids made from names ----------

  predicate SlugChar(ch: char) {
    'a' <= ch <= 'z' || '0' <= ch <= '9' || ch == '-' || ch == '_'
  }

  // Letters, digits, dashes and underscores stay, spaces become dashes, the rest goes.
  function SlugChars(s: string): string {
    if s == "" then ""
    else (if SlugChar(s[0]) then [s[0]] else if s[0] == ' ' then "-" else "") + SlugChars(s[1..])
  }

  predicate Joiner(ch: char) { ch == '-' || ch == '_' }

  function TrimJoinersLeft(s: string): string {
    if s != "" && Joiner(s[0]) then TrimJoinersLeft(s[1..]) else s
  }

  function TrimJoinersRight(s: string): string {
    if s != "" && Joiner(s[|s| - 1]) then TrimJoinersRight(s[..|s| - 1]) else s
  }

  function OrCanvas(s: string): string {
    if s == "" then "canvas" else s
  }

  /** makeSlug */
  function Slug(value: string): string {
    var trimmed := Trim(Lower(value));
    if trimmed == "" then "canvas" else OrCanvas(TrimJoinersRight(TrimJoinersLeft(SlugChars(trimmed))))
  }

  lemma {:induction false} SlugCharsShape(s: string)
    ensures forall i :: 0 <= i < |SlugChars(s)| ==> SlugChar(SlugChars(s)[i])
  {
    if s != "" {
      SlugCharsShape(s[1..]);
    }
  }

  lemma {:induction false} SlugCharsConcat(a: string, b: string)
    ensures SlugChars(a + b) == SlugChars(a) + SlugChars(b)
  {
    if a == "" {
      assert a + b == b;
    } else {
      assert (a + b)[1..] == a[1..] + b;
      SlugCharsConcat(a[1..], b);
    }
  }

  lemma {:induction false} TrimLeftShape(s: string)
    requires forall i :: 0 <= i < |s| ==> SlugChar(s[i])
    ensures var r := TrimJoinersLeft(s);
            (forall i :: 0 <= i < |r| ==> SlugChar(r[i])) && (r != "" ==> !Joiner(r[0]))
  {
    if s != "" && Joiner(s[0]) {
      TrimLeftShape(s[1..]);
    }
  }

  lemma {:induction false} TrimRightShape(s: string)
    requires forall i :: 0 <= i < |s| ==> SlugChar(s[i])
    requires s != "" ==> !Joiner(s[0])
    ensures var r := TrimJoinersRight(s);
            && (forall i :: 0 <= i < |r| ==> SlugChar(r[i]))
            && (r != "" ==> !Joiner(r[0]) && !Joiner(r[|r| - 1]))
  {
    if s != "" && Joiner(s[|s| - 1]) {
      TrimRightShape(s[..|s| - 1]);
    }
  }

  /** A slug is never empty, uses only slug characters, and has no dash or underscore at either end. */
  lemma SlugShape(value: string)
    ensures var r := Slug(value);
            && r != "" && !Joiner(r[0]) && !Joiner(r[|r| - 1])
            && (forall i :: 0 <= i < |r| ==> SlugChar(r[i]))
  {
    var trimmed := Trim(Lower(value));
    SlugCharsShape(trimmed);
    TrimLeftShape(SlugChars(trimmed));
    TrimRightShape(TrimJoinersLeft(SlugChars(trimmed)));
  }

  /** makeSlug as the program builds it, one character at a time. */
  method MakeSlug(value: string) returns (slug: string)
    ensures slug == Slug(value)
  {
    var trimmed := Trim(Lower(value));
    if trimmed == "" {
      return "canvas";
    }
    var builder := "";
    for i := 0 to |trimmed|
      invariant builder == SlugChars(trimmed[..i])
    {
      var ch := trimmed[i];
      SlugCharsConcat(trimmed[..i], [ch]);
      assert trimmed[..i + 1] == trimmed[..i] + [ch];
      assert [ch][1..] == "";
      if SlugChar(ch) {
        builder := builder + [ch];
      } else if ch == ' ' {
        builder := builder + "-";
      }
    }
    assert trimmed[..|trimmed|] == trimmed;
    slug := OrCanvas(TrimJoinersRight(TrimJoinersLeft(builder)));
  }

  /** The ids tried for a new canvas: the slug, then the slug with a running number. */
  function CandidateId(name: string, attempt: nat): string {
    if attempt == 0 then "canvas-" + Slug(name) else "canvas-" + Slug(name) + "-" + Sql.Decimal(attempt)
  }

  lemma DigitsDiffer(a: nat, b: nat)
    requires 0 < a < b < MAX_ATTEMPTS
    ensures Sql.Decimal(a) != Sql.Decimal(b)
  {
  }

  /** The ten ids are ten different ids. */
  lemma CandidatesDiffer(name: string, a: nat, b: nat)
    requires a < b < MAX_ATTEMPTS
    ensures CandidateId(name, a) != CandidateId(name, b)
  {
    hide Slug, Sql.Decimal;
    var stem := "canvas-" + Slug(name);
    if a == 0 {
      assert |CandidateId(name, b)| > |stem|;
    } else {
      DigitsDiffer(a, b);
      var x, y := CandidateId(name, a), CandidateId(name, b);
      assert x[|stem| + 1..] == Sql.Decimal(a) && y[|stem| + 1..] == Sql.Decimal(b);
    }
  }

  // ---------- Creating ----------

  function TryCreate(rows: seq<Row>, name: string, attempt: nat): Result<seq<Row>, StoreError>
    requires attempt <= MAX_ATTEMPTS
    decreases MAX_ATTEMPTS - attempt
  {
    if attempt == MAX_ATTEMPTS then Err(NoFreeId)
    else if IdUsed(rows, CandidateId(name, attempt)) then TryCreate(rows, name, attempt + 1)
    else Ok(rows + [Row(CandidateId(name, attempt), name, DRAFT_SPEC, 1)])
  }

  /** CreateDraftCanvas */
  function CreateDraft(rows: seq<Row>, raw: string): Result<seq<Row>, StoreError> {
    var name := Trim(raw);
    if name == "" then Err(NameRequired)
    else if NamedAt(rows, name).Some? then Err(AlreadyExists(name))
    else TryCreate(rows, name, 0)
  }

  lemma TryCreateMeaning(rows: seq<Row>, name: string, attempt: nat)
    requires attempt <= MAX_ATTEMPTS
    ensures TryCreate(rows, name, attempt).Ok? <==>
              exists k :: attempt <= k < MAX_ATTEMPTS && !IdUsed(rows, CandidateId(name, k))
    ensures TryCreate(rows, name, attempt).Ok? ==>
              exists k :: attempt <= k < MAX_ATTEMPTS && !IdUsed(rows, CandidateId(name, k))
                          && TryCreate(rows, name, attempt).value == rows + [Row(CandidateId(name, k), name, DRAFT_SPEC, 1)]
    ensures TryCreate(rows, name, attempt).Err? ==> TryCreate(rows, name, attempt).error == NoFreeId
    decreases MAX_ATTEMPTS - attempt
  {
    hide CandidateId, IdUsed;
    if attempt < MAX_ATTEMPTS && IdUsed(rows, CandidateId(name, attempt)) {
      TryCreateMeaning(rows, name, attempt + 1);
    }
  }

  /**
    A draft is created exactly when the name is new and one of its ten ids is free. The
    table only grows, by a row of that name at version 1, and ids and names stay unique.
   */
  lemma CreateDraftMeaning(rows: seq<Row>, raw: string)
    ensures CreateDraft(rows, raw).Ok? <==>
              && Trim(raw) != ""
              && (forall i :: 0 <= i < |rows| ==> rows[i].name != Trim(raw))
              && (exists k :: 0 <= k < MAX_ATTEMPTS && !IdUsed(rows, CandidateId(Trim(raw), k)))
    ensures CreateDraft(rows, raw).Ok? ==>
              var after := CreateDraft(rows, raw).value;
              && |after| == |rows| + 1 && after[..|rows|] == rows
              && after[|rows|].name == Trim(raw) && after[|rows|].version == 1 && after[|rows|].spec == DRAFT_SPEC
              && !IdUsed(rows, after[|rows|].id)
              && (UniqueIds(rows) ==> UniqueIds(after))
              && (UniqueNames(rows) ==> UniqueNames(after))
  {
    hide CandidateId, TryCreate, Trim;
    TryCreateMeaning(rows, Trim(raw), 0);
    if CreateDraft(rows, raw).Ok? {
      var after := CreateDraft(rows, raw).value;
      assert after[..|rows|] == rows;
    }
  }

  // ---------- Renaming, deleting, saving ----------

  /** A version that is not positive is stored as 1. */
  function NextVersion(v: int): int {
    if v + 1 <= 0 then 1 else v + 1
  }

  /** RenameCanvas */
  function Rename(rows: seq<Row>, oldRaw: string, newRaw: string): Result<seq<Row>, StoreError> {
    if Trim(oldRaw) == "" || Trim(newRaw) == "" then Err(NameRequired)
    else
      match FindByName(rows, oldRaw)
      case Err(e) => Err(e)
      case Ok(k) => Ok(Update(rows, rows[k].(name := Trim(newRaw), version := NextVersion(rows[k].version))))
  }

  /** DeleteCanvas */
  function DeleteCanvas(rows: seq<Row>, raw: string): Result<seq<Row>, StoreError> {
    match FindByName(rows, raw)
    case Err(e) => Err(e)
    case Ok(k) => Ok(Delete(rows, rows[k].id))
  }

  /** SaveCanvasSpec */
  function SaveSpec(c: Codec, rows: seq<Row>, raw: string, spec: string): Result<seq<Row>, StoreError> {
    if Trim(raw) == "" || Trim(spec) == "" then Err(SpecMissing)
    else
      match CanonicalText(c, spec)
      case Err(f) => Err(BadSpec(f))
      case Ok(text) =>
        match FindByName(rows, raw)
        case Err(e) => Err(e)
        case Ok(k) => Ok(Update(rows, rows[k].(spec := text, version := NextVersion(rows[k].version))))
  }

  lemma UpdateOne(rows: seq<Row>, k: nat, row: Row)
    requires UniqueIds(rows) && k < |rows| && row.id == rows[k].id
    ensures Update(rows, row) == rows[k := row]
    ensures UniqueIds(Update(rows, row))
  {
  }

  lemma NamedAtOnly(rows: seq<Row>, k: nat)
    requires UniqueNames(rows) && k < |rows|
    ensures NamedAt(rows, rows[k].name) == Some(k)
  {
  }

  /** A renaming touches the one row; names stay distinct exactly when no other row has the new name. */
  lemma RenameMeaning(rows: seq<Row>, oldRaw: string, newRaw: string)
    requires UniqueIds(rows) && UniqueNames(rows)
    ensures Rename(rows, oldRaw, newRaw).Ok? <==>
              Trim(newRaw) != "" && Trim(oldRaw) != "" && exists k :: 0 <= k < |rows| && rows[k].name == Trim(oldRaw)
    ensures Rename(rows, oldRaw, newRaw).Ok? ==>
              exists k :: 0 <= k < |rows| && rows[k].name == Trim(oldRaw)
                && Rename(rows, oldRaw, newRaw).value ==
                     rows[k := Row(rows[k].id, Trim(newRaw), rows[k].spec, NextVersion(rows[k].version))]
                && (UniqueNames(Rename(rows, oldRaw, newRaw).value) <==>
                      forall i :: 0 <= i < |rows| && i != k ==> rows[i].name != Trim(newRaw))
  {
    hide Trim, NextVersion, Update;
    if Rename(rows, oldRaw, newRaw).Ok? {
      var k := FindByName(rows, oldRaw).value;
      var row := rows[k].(name := Trim(newRaw), version := NextVersion(rows[k].version));
      UpdateOne(rows, k, row);
      RenamedNames(rows, k, row);
    }
  }

  lemma RenamedNames(rows: seq<Row>, k: nat, row: Row)
    requires UniqueNames(rows) && k < |rows|
    ensures UniqueNames(rows[k := row]) <==> forall i :: 0 <= i < |rows| && i != k ==> rows[i].name != row.name
  {
    var after := rows[k := row];
    if UniqueNames(after) {
      forall i | 0 <= i < |rows| && i != k
        ensures rows[i].name != row.name
      {
        assert after[i].name != after[k].name;
      }
    }
  }

  /** Deleting removes exactly the row with the id; the others keep their order. */
  lemma {:induction false} DeleteOne(rows: seq<Row>, k: nat)
    requires UniqueIds(rows) && k < |rows|
    ensures Delete(rows, rows[k].id) == rows[..k] + rows[k + 1..]
  {
    if k == 0 {
      DeleteAbsent(rows[1..], rows[0].id);
    } else {
      DeleteOne(rows[1..], k - 1);
      assert rows[..k] == [rows[0]] + rows[1..][..k - 1];
      assert rows[1..][k..] == rows[k + 1..];
    }
  }

  lemma {:induction false} DeleteAbsent(rows: seq<Row>, id: string)
    requires forall i :: 0 <= i < |rows| ==> rows[i].id != id
    ensures Delete(rows, id) == rows
  {
    if rows != [] {
      DeleteAbsent(rows[1..], id);
    }
  }

  lemma DeleteMeaning(rows: seq<Row>, raw: string)
    requires UniqueIds(rows) && UniqueNames(rows)
    ensures DeleteCanvas(rows, raw).Ok? <==>
              Trim(raw) != "" && exists k :: 0 <= k < |rows| && rows[k].name == Trim(raw)
    ensures DeleteCanvas(rows, raw).Ok? ==>
              exists k :: 0 <= k < |rows| && rows[k].name == Trim(raw)
                && DeleteCanvas(rows, raw).value == rows[..k] + rows[k + 1..]
  {
    hide Trim;
    if DeleteCanvas(rows, raw).Ok? {
      DeleteOne(rows, FindByName(rows, raw).value);
    }
  }

  /** A save stores the canonical text in the one row of that name and counts it; nothing else changes. */
  lemma SaveMeaning(c: Codec, rows: seq<Row>, raw: string, spec: string)
    requires UniqueIds(rows) && UniqueNames(rows)
    ensures SaveSpec(c, rows, raw, spec).Ok? <==>
              && Trim(raw) != "" && CanonicalText(c, spec).Ok?
              && exists k :: 0 <= k < |rows| && rows[k].name == Trim(raw)
    ensures SaveSpec(c, rows, raw, spec).Ok? ==>
              exists k :: 0 <= k < |rows| && rows[k].name == Trim(raw)
                && SaveSpec(c, rows, raw, spec).value ==
                     rows[k := Row(rows[k].id, rows[k].name, CanonicalText(c, spec).value, NextVersion(rows[k].version))]
  {
    hide TrimLeft, TrimRight, NextVersion, Update, Marshal;
    if SaveSpec(c, rows, raw, spec).Ok? {
      var k := FindByName(rows, raw).value;
      UpdateOne(rows, k, rows[k].(spec := CanonicalText(c, spec).value, version := NextVersion(rows[k].version)));
    }
  }
}
