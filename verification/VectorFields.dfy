/** The description of a vector field and its canonical form. */
module VectorFields {
  import opened Results
  import opened Text
  import S = Staleness

  const SCHEMA := "1.0.0"
  const DEFAULT_HOURS := 24

  datatype Field = Field(
    id: string,
    schemaVersion: string,
    table: string,
    sourceColumn: string,
    vectorColumn: string,
    dimension: int,
    provider: string,
    model: string,
    staleAfterHours: int,
    lastIndexed: S.Time,
    sourceUpdated: S.Time)

  datatype FieldFault =
    | UnsupportedSchema(version: string)
    | IDRequired
    | TableRequired
    | SourceColumnRequired
    | DimensionNotPositive
    | ProviderRequired
    | ModelRequired
    | NegativeHours

  function DefaultVectorColumn(table: string, sourceColumn: string): string {
    Trim(table + "_" + sourceColumn + "_vec")
  }

  function TrimmedField(f: Field): Field {
    f.(id := Trim(f.id), schemaVersion := Trim(f.schemaVersion), table := Trim(f.table), sourceColumn := Trim(f.sourceColumn),
       vectorColumn := Trim(f.vectorColumn), provider := Trim(f.provider), model := Trim(f.model))
  }

  function WithDefaults(f: Field): Field {
    f.(schemaVersion := SCHEMA,
       vectorColumn := if f.vectorColumn == "" then DefaultVectorColumn(f.table, f.sourceColumn) else f.vectorColumn,
       staleAfterHours := if f.staleAfterHours == 0 then DEFAULT_HOURS else f.staleAfterHours)
  }

  /** CanonicalizeVectorField */
  function Canonicalize(raw: Field): Result<Field, FieldFault> {
    var f := TrimmedField(raw);
    if f.schemaVersion != "" && f.schemaVersion != SCHEMA then Err(UnsupportedSchema(f.schemaVersion))
    else if f.id == "" then Err(IDRequired)
    else if f.table == "" then Err(TableRequired)
    else if f.sourceColumn == "" then Err(SourceColumnRequired)
    else if f.dimension <= 0 then Err(DimensionNotPositive)
    else if f.provider == "" then Err(ProviderRequired)
    else if f.model == "" then Err(ModelRequired)
    else if f.staleAfterHours < 0 then Err(NegativeHours)
    else Ok(WithDefaults(f))
  }

  /** A field in canonical form: trimmed names that are all there, the current schema, a dimension and a window. */
  predicate CanonicalField(f: Field) {
    && f.schemaVersion == SCHEMA
    && f.id != "" && f.table != "" && f.sourceColumn != "" && f.vectorColumn != "" && f.provider != "" && f.model != ""
    && Trimmed(f.id) && Trimmed(f.table) && Trimmed(f.sourceColumn) && Trimmed(f.vectorColumn) && Trimmed(f.provider) && Trimmed(f.model)
    && f.dimension > 0 && f.staleAfterHours > 0
  }

  lemma DefaultColumnIsNamed(table: string, sourceColumn: string)
    requires table != "" && Trimmed(table)
    ensures DefaultVectorColumn(table, sourceColumn) == table + "_" + sourceColumn + "_vec"
  {
    hide Trim;
    var name := table + "_" + sourceColumn + "_vec";
    assert name[0] == table[0] && name[|name| - 1] == 'c';
    assert Trimmed(name);
  }

  /** A field that is accepted comes out canonical, and the canonical fields are exactly the fixpoints. */
  lemma CanonicalFieldsAreFixpoints(f: Field)
    ensures Canonicalize(f).Ok? ==> CanonicalField(Canonicalize(f).value)
    ensures Canonicalize(f) == Ok(f) <==> CanonicalField(f)
  {
    hide Trim, DefaultVectorColumn;
    DefaultColumnIsNamed(if Trim(f.table) == "" then "t" else Trim(f.table), Trim(f.sourceColumn));
    assert Trimmed(SCHEMA) && SCHEMA != "";
  }
}
