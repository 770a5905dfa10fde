/** What a build sends, reports and files, said by the places of the records; and what it makes of the field. */
module BuildMeaning {
  import opened Results
  import opened Text
  import opened Sorting
  import opened VectorFields
  import opened VectorBuild
  import S = Staleness

  // ---------- The field ----------

  /**
    A field is accepted exactly when it has the current schema or none, a trimmed id,
    table, source column, provider and model, a positive dimension and no negative window.
    Missing are filled in the schema, the vector column and a window of a day.
   */
  lemma CanonicalizeMeaning(raw: Field)
    ensures Canonicalize(raw).Ok? <==>
              && (Trim(raw.schemaVersion) == "" || Trim(raw.schemaVersion) == "1.0.0")
              && Trim(raw.id) != "" && Trim(raw.table) != "" && Trim(raw.sourceColumn) != ""
              && Trim(raw.provider) != "" && Trim(raw.model) != ""
              && raw.dimension > 0 && raw.staleAfterHours >= 0
    ensures Canonicalize(raw).Ok? ==>
              Canonicalize(raw).value == Field(
                Trim(raw.id), "1.0.0", Trim(raw.table), Trim(raw.sourceColumn),
                if Trim(raw.vectorColumn) == "" then Trim(raw.table) + "_" + Trim(raw.sourceColumn) + "_vec" else Trim(raw.vectorColumn),
                raw.dimension, Trim(raw.provider), Trim(raw.model), if raw.staleAfterHours == 0 then 24 else raw.staleAfterHours,
                raw.lastIndexed, raw.sourceUpdated)
  {
    hide Trim, DefaultVectorColumn;
    DefaultColumnIsNamed(if Trim(raw.table) == "" then "t" else Trim(raw.table), Trim(raw.sourceColumn));
  }

  /** A build moves the index time to now and takes over a known source time; a skipped one changes nothing. */
  lemma BuiltFieldMeaning(field: Field, sourceUpdated: S.Time, now: S.Time)
    ensures BuiltField(field, sourceUpdated, now, false) == field
    ensures var f := BuiltField(field, sourceUpdated, now, true);
            && f.lastIndexed == now && f.sourceUpdated == (if sourceUpdated == 0 then field.sourceUpdated else sourceUpdated)
            && f.(lastIndexed := field.lastIndexed, sourceUpdated := field.sourceUpdated) == field
  {
  }

  // ---------- Batches ----------

  lemma ChunkAt(ids: seq<string>, b: nat, i: nat, j: nat)
    requires j < |Chunk(ids, b, i)|
    ensures i * b + j < |ids| && Chunk(ids, b, i)[j] == ids[i * b + j] && j < b
  {
    Products(i, b);
    StartsAscend(|ids|, b, i);
  }

  /** The j-th text of the i-th call is that of the record at place i*b + j. */
  lemma CallsMeaning(texts: map<string, string>, ids: seq<string>, b: nat, calls: seq<seq<string>>, i: nat, j: nat)
    requires b > 0 && CallsMade(texts, ids, b, calls) && i < |calls| && j < |calls[i]|
    ensures j < b && 0 <= i * b + j < |ids| && ids[i * b + j] in texts && calls[i][j] == texts[ids[i * b + j]]
  {
    hide Chunk, Batches;
    ChunkAt(ids, b, i, j);
  }

  /** And the vector of that record is the j-th of the answer to that call. */
  lemma VectorsMeaning(provider: Provider, dimension: int, texts: map<string, string>, ids: seq<string>, b: nat,
                       calls: seq<seq<string>>, vectors: map<string, seq<real>>, i: nat, j: nat)
    requires b > 0 && CallsMade(texts, ids, b, calls) && i < |calls| && j < |calls[i]|
    requires Collected(provider, dimension, ids, b, calls, |calls|, vectors)
    ensures provider.respond(i, calls[i]).Ok? && |provider.respond(i, calls[i]).value| == |calls[i]|
    ensures 0 <= i * b + j < |ids| && ids[i * b + j] in vectors
    ensures vectors[ids[i * b + j]] == provider.respond(i, calls[i]).value[j] && |vectors[ids[i * b + j]]| == dimension
  {
    hide Chunk, Batches, TextsOf, Start;
    CallsMeaning(texts, ids, b, calls, i, j);
    assert BatchFiled(provider, dimension, ids, b, i, calls[i], vectors);
    ChunkAt(ids, b, i, j);
  }

  // ---------- Reports ----------

  /** The i-th report counts from 1, and says how many records are done, how many of them just now, and how many there are. */
  lemma ReportMeaning(fieldID: string, n: nat, b: nat, i: nat)
    requires b > 0 && i * b < n
    ensures var r := Report(fieldID, n, b, i);
            && r.fieldID == fieldID && r.batchIndex == i + 1 && r.total == n && !r.done
            && r.processed == (if (i + 1) * b <= n then (i + 1) * b else n)
            && r.processed == i * b + r.batchSize && 0 < r.batchSize <= b
            && r.totalBatches == (n + b - 1) / b
  {
    Products(i, b);
  }

  lemma FinalReportMeaning(fieldID: string, n: nat, b: nat)
    requires b > 0
    ensures var r := FinalReport(fieldID, n, b);
            && r.fieldID == fieldID && r.batchIndex == (n + b - 1) / b && r.totalBatches == (n + b - 1) / b
            && r.batchSize == 0 && r.processed == n && r.total == n && r.done
  {
  }
}
