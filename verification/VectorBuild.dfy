/**
  Building the vectors of a field: the records are sorted by id and sent to the provider in
  batches, with a progress report after each.
 */
module VectorBuild {
  import opened Results
  import opened Text
  import opened Sorting
  import opened VectorFields
  import S = Staleness

  const DEFAULT_BATCH := 64

  /** respond takes the number of the call, so that it may answer the same texts differently each time. */
  datatype Provider = Provider(dimension: int, respond: (nat, seq<string>) -> Result<seq<seq<real>>, string>)

  datatype Progress = Progress(
    fieldID: string, batchIndex: nat, totalBatches: nat, batchSize: nat, processed: nat, total: nat, done: bool)

  datatype BuildError =
    | BadField(fault: FieldFault)
    | NoProvider
    | ProviderDimension
    | Cancelled(batch: nat)
    | ProviderFailed(call: nat)
    | VectorCount(call: nat)
    | VectorDimension(call: nat, at: nat)

  datatype BuildResult = BuildResult(field: Field, batchSize: nat, built: bool, vectors: map<string, seq<real>>)

  // ---------- Batches ----------

  function Min(a: nat, b: nat): nat {
    if a < b then a else b
  }

  /** How many batches of size b hold n records. */
  function Batches(n: nat, b: nat): nat
    requires b > 0
  {
    (n + b - 1) / b
  }

  function Start(n: nat, b: nat, i: nat): nat {
    Min(i * b, n)
  }

  lemma Products(i: nat, b: nat)
    ensures (i + 1) * b == i * b + b && i * b >= 0
  {
  }

  lemma StartsAscend(n: nat, b: nat, i: nat)
    ensures Start(n, b, i) <= Start(n, b, i + 1) <= n
  {
    Products(i, b);
  }

  /** The i-th batch of the ids. */
  function Chunk(ids: seq<string>, b: nat, i: nat): seq<string> {
    StartsAscend(|ids|, b, i);
    ids[Start(|ids|, b, i)..Start(|ids|, b, i + 1)]
  }

  lemma NextMultiple(x: int, y: int, b: nat)
    ensures x < y ==> x * b + b <= y * b
  {
    if x < y {
      var k: nat := y - x - 1;
      assert (x + 1 + k) * b == x * b + b + k * b;
      assert k * b >= 0;
    }
  }

  /** The batch count is the number of starts below n. */
  lemma BatchesMeaning(n: nat, b: nat, i: nat)
    requires b > 0
    ensures i * b < n <==> i < Batches(n, b)
  {
    var q := (n + b - 1) / b;
    assert n + b - 1 == q * b + (n + b - 1) % b;
    NextMultiple(i, q, b);
    NextMultiple(q, i + 1, b);
    Products(i, b);
    if i >= q {
      NextMultiple(q - 1, i, b);
      assert (q - 1) * b == q * b - b;
    }
  }

  lemma BatchIndex(i: nat, b: nat)
    requires b > 0
    ensures (i * b) / b == i
  {
    var q := (i * b) / b;
    assert i * b == q * b + (i * b) % b;
    NextMultiple(q, i, b);
    NextMultiple(i, q, b);
  }

  function Joined(ids: seq<string>, b: nat, k: nat): seq<string> {
    if k == 0 then [] else Joined(ids, b, k - 1) + Chunk(ids, b, k - 1)
  }

  lemma {:induction false} JoinedIsPrefix(ids: seq<string>, b: nat, k: nat)
    ensures Start(|ids|, b, k) <= |ids| && Joined(ids, b, k) == ids[..Start(|ids|, b, k)]
  {
    hide Start;
    if k == 0 {
      StartsAtZero(|ids|, b);
    } else {
      JoinedIsPrefix(ids, b, k - 1);
      StartsAscend(|ids|, b, k - 1);
      var lo, hi := Start(|ids|, b, k - 1), Start(|ids|, b, k);
      assert ids[..lo] + ids[lo..hi] == ids[..hi];
    }
  }

  lemma StartsAtZero(n: nat, b: nat)
    ensures Start(n, b, 0) == 0
  {
  }

  /** The batches partition the ids: in order, none left out, every batch but the last full. */
  lemma BatchesPartition(ids: seq<string>, b: nat)
    requires b > 0
    ensures Joined(ids, b, Batches(|ids|, b)) == ids
    ensures forall i :: 0 <= i < Batches(|ids|, b) - 1 ==> |Chunk(ids, b, i)| == b
    ensures Batches(|ids|, b) > 0 ==> 0 < |Chunk(ids, b, Batches(|ids|, b) - 1)| <= b
  {
    hide Batches, Start, Joined, Chunk;
    var n: int, q: int := |ids|, Batches(|ids|, b);
    JoinedIsPrefix(ids, b, q);
    BatchesMeaning(n, b, q);
    EverythingProcessed(n, b, q);
    assert ids[..n] == ids;
    forall i | 0 <= i < q - 1
      ensures |Chunk(ids, b, i)| == b
    {
      BatchesMeaning(n, b, i + 1);
      ChunkSize(ids, b, i);
    }
    if q > 0 {
      BatchesMeaning(n, b, q - 1);
      ChunkSize(ids, b, q - 1);
    }
  }

  lemma ChunkLength(ids: seq<string>, b: nat, i: nat)
    ensures Start(|ids|, b, i) <= Start(|ids|, b, i + 1) <= |ids|
    ensures |Chunk(ids, b, i)| == Start(|ids|, b, i + 1) - Start(|ids|, b, i)
  {
    hide Start;
    StartsAscend(|ids|, b, i);
  }

  lemma ChunkSize(ids: seq<string>, b: nat, i: nat)
    requires i * b < |ids|
    ensures (i + 1) * b < |ids| ==> |Chunk(ids, b, i)| == b
    ensures b > 0 ==> 0 < |Chunk(ids, b, i)| <= b
  {
    Products(i, b);
  }

  lemma EverythingProcessed(n: nat, b: nat, k: nat)
    requires k * b >= n
    ensures Start(n, b, k) == n
  {
  }

  // ---------- What a run does ----------

  function TextsOf(texts: map<string, string>, ids: seq<string>): (r: seq<string>)
    requires forall i :: 0 <= i < |ids| ==> ids[i] in texts
    ensures |r| == |ids|
  {
    seq(|ids|, i requires 0 <= i < |ids| => texts[ids[i]])
  }

  /** The ids that are not blank, sorted. */
  predicate IsOrdered(texts: map<string, string>, ids: seq<string>) {
    && Ascending(ids)
    && (forall i :: 0 <= i < |ids| ==> ids[i] in texts && Trim(ids[i]) != "")
    && (forall id :: id in texts && Trim(id) != "" ==> id in ids)
  }

  function Report(fieldID: string, n: nat, b: nat, i: nat): Progress
    requires b > 0
  {
    StartsAscend(n, b, i);
    Progress(fieldID, i + 1, Batches(n, b), Start(n, b, i + 1) - Start(n, b, i), Start(n, b, i + 1), n, false)
  }

  function FinalReport(fieldID: string, n: nat, b: nat): Progress
    requires b > 0
  {
    Progress(fieldID, Batches(n, b), Batches(n, b), 0, n, n, true)
  }

  /** The first calls of a run were made, one batch each, in order. */
  predicate CallsMade(texts: map<string, string>, ids: seq<string>, b: nat, calls: seq<seq<string>>)
    requires b > 0
  {
    && |calls| <= Batches(|ids|, b)
    && (forall i :: 0 <= i < |ids| ==> ids[i] in texts)
    && (forall i :: 0 <= i < |calls| ==> calls[i] == TextsOf(texts, Chunk(ids, b, i)))
  }

  predicate Reported(fieldID: string, n: nat, b: nat, progress: seq<Progress>)
    requires b > 0
  {
    forall i :: 0 <= i < |progress| ==> progress[i] == Report(fieldID, n, b, i)
  }

  /** The call answered with one vector of the right dimension for each text. */
  predicate Answered(provider: Provider, dimension: int, call: nat, sent: seq<string>) {
    var r := provider.respond(call, sent);
    r.Ok? && |r.value| == |sent| && forall j :: 0 <= j < |r.value| ==> |r.value[j]| == dimension
  }

  // The ids of the first k batches have a vector.
  ghost predicate KeysUpTo(ids: seq<string>, b: nat, k: nat, vectors: map<string, seq<real>>) {
    Start(|ids|, b, k) <= |ids| && forall id :: id in vectors <==> id in ids[..Start(|ids|, b, k)]
  }

  // The ids of the i-th batch have the vectors the provider answered.
  predicate BatchFiled(provider: Provider, dimension: int, ids: seq<string>, b: nat, i: nat, sent: seq<string>,
                       vectors: map<string, seq<real>>)
  {
    && Answered(provider, dimension, i, sent)
    && |sent| == |Chunk(ids, b, i)|
    && forall j :: 0 <= j < |Chunk(ids, b, i)| ==>
         Chunk(ids, b, i)[j] in vectors && vectors[Chunk(ids, b, i)[j]] == provider.respond(i, sent).value[j]
  }

  /** The vectors of the first k batches, each under its own id. */
  ghost predicate Collected(provider: Provider, dimension: int, ids: seq<string>, b: nat, calls: seq<seq<string>>,
                            k: nat, vectors: map<string, seq<real>>)
  {
    && k <= |calls|
    && KeysUpTo(ids, b, k, vectors)
    && forall i :: 0 <= i < k ==> BatchFiled(provider, dimension, ids, b, i, calls[i], vectors)
  }

  // ---------- The run itself ----------

  /** Collects the ids that are not blank and sorts them. */
  method SortedIDs(texts: map<string, string>) returns (ids: seq<string>)
    ensures IsOrdered(texts, ids)
  {
    hide Less, Trim;
    ids := SortedKeys(set id | id in texts && Trim(id) != "");
    assert forall i :: 0 <= i < |ids| ==> ids[i] in ids;
  }

  // Files the answers of one batch under their ids.
  method FileVectors(chunk: seq<string>, answers: seq<seq<real>>, dimension: int, before: map<string, seq<real>>)
    returns (r: Result<map<string, seq<real>>, nat>)
    requires |answers| == |chunk| && Ascending(chunk)
    ensures r.Ok? <==> forall j :: 0 <= j < |answers| ==> |answers[j]| == dimension
    ensures r.Err? ==> r.error < |answers| && |answers[r.error]| != dimension
    ensures r.Ok? ==> Extends(chunk, answers, before, r.value)
  {
    hide Less;
    var vectors := before;
    for j := 0 to |answers|
      invariant forall i :: 0 <= i < j ==> |answers[i]| == dimension
      invariant forall id :: id in vectors <==> id in before || id in chunk[..j]
      invariant forall i :: 0 <= i < j ==> vectors[chunk[i]] == answers[i]
      invariant forall id :: id in before && id !in chunk[..j] ==> vectors[id] == before[id]
    {
      if |answers[j]| != dimension {
        return Err(j);
      }
      forall i | 0 <= i < j
        ensures chunk[i] != chunk[j]
      {
        LessIrreflexive(chunk[j]);
      }
      vectors := vectors[chunk[j] := answers[j]];
    }
    assert chunk[..|answers|] == chunk;
    return Ok(vectors);
  }

  lemma ChunkAscends(texts: map<string, string>, ids: seq<string>, b: nat, i: nat)
    requires IsOrdered(texts, ids)
    ensures Ascending(Chunk(ids, b, i))
    ensures forall j :: 0 <= j < |Chunk(ids, b, i)| ==> Chunk(ids, b, i)[j] in texts
  {
    hide Less, Start;
    StartsAscend(|ids|, b, i);
  }

  lemma NothingCollected(provider: Provider, dimension: int, ids: seq<string>, b: nat)
    ensures Collected(provider, dimension, ids, b, [], 0, map[])
  {
  }

  // What filing one more batch does to the map of vectors.
  ghost predicate Extends(chunk: seq<string>, answers: seq<seq<real>>, before: map<string, seq<real>>, after: map<string, seq<real>>)
  {
    && |answers| == |chunk|
    && (forall id :: id in after <==> id in before || id in chunk)
    && (forall j :: 0 <= j < |chunk| ==> after[chunk[j]] == answers[j])
    && (forall id :: id in before && id !in chunk ==> after[id] == before[id])
  }

  lemma KeysOneMore(ids: seq<string>, b: nat, k: nat, answers: seq<seq<real>>, before: map<string, seq<real>>, after: map<string, seq<real>>)
    requires KeysUpTo(ids, b, k, before) && Extends(Chunk(ids, b, k), answers, before, after)
    ensures KeysUpTo(ids, b, k + 1, after)
  {
    hide Start;
    var lo, mid := Start(|ids|, b, k), Start(|ids|, b, k + 1);
    StartsAscend(|ids|, b, k);
    assert ids[..mid] == ids[..lo] + ids[lo..mid];
  }

  lemma EarlierStaysFiled(texts: map<string, string>, provider: Provider, dimension: int, ids: seq<string>, b: nat, i: nat, k: nat,
                          sent: seq<string>, answers: seq<seq<real>>, before: map<string, seq<real>>, after: map<string, seq<real>>)
    requires IsOrdered(texts, ids) && i < k && BatchFiled(provider, dimension, ids, b, i, sent, before)
    requires Extends(Chunk(ids, b, k), answers, before, after)
    ensures BatchFiled(provider, dimension, ids, b, i, sent, after)
  {
    hide IsOrdered, Answered, Start;
    forall j | 0 <= j < |Chunk(ids, b, i)|
      ensures Chunk(ids, b, i)[j] in after && after[Chunk(ids, b, i)[j]] == before[Chunk(ids, b, i)[j]]
    {
      EarlierChunksDiffer(texts, ids, b, i, j, k);
    }
  }

  lemma CollectedOneMore(texts: map<string, string>, provider: Provider, dimension: int, ids: seq<string>, b: nat,
                         calls: seq<seq<string>>, sent: seq<string>, before: map<string, seq<real>>, after: map<string, seq<real>>)
    requires IsOrdered(texts, ids) && |sent| == |Chunk(ids, b, |calls|)|
    requires Collected(provider, dimension, ids, b, calls, |calls|, before)
    requires Answered(provider, dimension, |calls|, sent)
    requires Extends(Chunk(ids, b, |calls|), provider.respond(|calls|, sent).value, before, after)
    ensures Collected(provider, dimension, ids, b, calls + [sent], |calls| + 1, after)
  {
    hide IsOrdered, Chunk, KeysUpTo, BatchFiled;
    var k := |calls|;
    var answers := provider.respond(k, sent).value;
    KeysOneMore(ids, b, k, answers, before, after);
    forall i | 0 <= i < k + 1
      ensures BatchFiled(provider, dimension, ids, b, i, (calls + [sent])[i], after)
    {
      if i < k {
        EarlierStaysFiled(texts, provider, dimension, ids, b, i, k, calls[i], answers, before, after);
      } else {
        LastIsFiled(provider, dimension, ids, b, k, sent, before, after);
      }
    }
  }

  lemma LastIsFiled(provider: Provider, dimension: int, ids: seq<string>, b: nat, k: nat, sent: seq<string>,
                    before: map<string, seq<real>>, after: map<string, seq<real>>)
    requires Answered(provider, dimension, k, sent) && |sent| == |Chunk(ids, b, k)|
    requires Extends(Chunk(ids, b, k), provider.respond(k, sent).value, before, after)
    ensures BatchFiled(provider, dimension, ids, b, k, sent, after)
  {
    hide Chunk;
    forall j | 0 <= j < |Chunk(ids, b, k)|
      ensures Chunk(ids, b, k)[j] in after
    {
      assert Chunk(ids, b, k)[j] in Chunk(ids, b, k);
    }
  }

  lemma StartsMonotone(n: nat, b: nat, i: nat, k: nat)
    requires i <= k
    ensures Start(n, b, i) <= Start(n, b, k)
    decreases k - i
  {
    hide Start;
    if i < k {
      StartsAscend(n, b, i);
      StartsMonotone(n, b, i + 1, k);
    }
  }

  lemma EarlierChunksDiffer(texts: map<string, string>, ids: seq<string>, b: nat, i: nat, j: nat, k: nat)
    requires IsOrdered(texts, ids) && i < k && j < |Chunk(ids, b, i)|
    ensures Chunk(ids, b, i)[j] !in Chunk(ids, b, k)
  {
    hide Less, Start, Trim;
    StartsAscend(|ids|, b, i);
    StartsAscend(|ids|, b, k);
    StartsMonotone(|ids|, b, i + 1, k);
    var p := Start(|ids|, b, i) + j;
    assert Chunk(ids, b, i)[j] == ids[p];
    forall q | Start(|ids|, b, k) <= q < |ids|
      ensures ids[q] != ids[p]
    {
      LessIrreflexive(ids[p]);
    }
  }

  lemma NoCallsMade(texts: map<string, string>, ids: seq<string>, b: nat)
    requires b > 0 && IsOrdered(texts, ids)
    ensures CallsMade(texts, ids, b, [])
  {
  }

  // One batch: send its texts, check the answer, file the vectors.
  method SendBatch(provider: Provider, texts: map<string, string>, order: seq<string>, b: nat, i: nat, dimension: int,
                   vectors: map<string, seq<real>>, ghost calls: seq<seq<string>>)
    returns (sent: seq<string>, r: Result<map<string, seq<real>>, BuildError>)
    requires IsOrdered(texts, order) && i == |calls|
    requires Collected(provider, dimension, order, b, calls, i, vectors)
    ensures |sent| == |Chunk(order, b, i)| && (forall j :: 0 <= j < |order| ==> order[j] in texts)
    ensures sent == TextsOf(texts, Chunk(order, b, i))
    ensures r.Ok? ==> Collected(provider, dimension, order, b, calls + [sent], i + 1, r.value)
    ensures r.Err? ==>
              match r.error
              case ProviderFailed(call) => call == i && provider.respond(i, sent).Err?
              case VectorCount(call) => call == i && !Answered(provider, dimension, i, sent)
              case VectorDimension(call, _) => call == i && !Answered(provider, dimension, i, sent)
              case _ => false
  {
    hide Start, Less, Trim, Collected, TextsOf;
    ChunkAscends(texts, order, b, i);
    var chunk := Chunk(order, b, i);
    sent := TextsOf(texts, chunk);
    var answer := provider.respond(i, sent);
    if answer.Err? {
      return sent, Err(ProviderFailed(i));
    }
    if |answer.value| != |sent| {
      return sent, Err(VectorCount(i));
    }
    var filed := FileVectors(chunk, answer.value, dimension, vectors);
    if filed.Err? {
      return sent, Err(VectorDimension(i, filed.error));
    }
    CollectedOneMore(texts, provider, dimension, order, b, calls, sent, vectors, filed.value);
    return sent, Ok(filed.value);
  }

  // The batch loop, with a report after each batch and one at the end.
  method RunBatches(fieldID: string, provider: Provider, dimension: int, texts: map<string, string>, order: seq<string>,
                    b: nat, cancelled: nat -> bool)
    returns (r: Result<map<string, seq<real>>, BuildError>, calls: seq<seq<string>>, progress: seq<Progress>)
    requires b > 0 && IsOrdered(texts, order)
    ensures CallsMade(texts, order, b, calls)
    ensures Reported(fieldID, |order|, b, progress[..Min(|progress|, Batches(|order|, b))])
    ensures r.Ok? ==>
              && |calls| == Batches(|order|, b)
              && |progress| == Batches(|order|, b) + 1
              && progress[Batches(|order|, b)] == FinalReport(fieldID, |order|, b)
              && Collected(provider, dimension, order, b, calls, |calls|, r.value)
    ensures r.Err? ==>
              && |progress| <= |calls|
              && match r.error
                 case Cancelled(batch) => batch == |calls| && cancelled(batch)
                 case ProviderFailed(call) => call + 1 == |calls| && provider.respond(call, calls[call]).Err?
                 case VectorCount(call) => call + 1 == |calls| && !Answered(provider, dimension, call, calls[call])
                 case VectorDimension(call, _) => call + 1 == |calls| && !Answered(provider, dimension, call, calls[call])
                 case _ => false
  {
    hide Batches, Start, Less, Trim, Collected, TextsOf, Chunk, IsOrdered, Answered;
    calls, progress := [], [];
    NoCallsMade(texts, order, b);
    var n := |order|;
    var total := Batches(n, b);
    var vectors: map<string, seq<real>> := map[];
    var start, processed := 0, 0;
    NothingCollected(provider, dimension, order, b);
    StartsAtZero(n, b);
    BatchesMeaning(n, b, 0);
    while start < n
      invariant start == |calls| * b && processed == Start(n, b, |calls|)
      invariant start < n <==> |calls| < Batches(n, b)
      invariant |calls| <= Batches(n, b) && |progress| == |calls|
      invariant CallsMade(texts, order, b, calls)
      invariant Reported(fieldID, n, b, progress)
      invariant Collected(provider, dimension, order, b, calls, |calls|, vectors)
      decreases Batches(n, b) - |calls|
    {
      var i := |calls|;
      if cancelled(i) {
        assert progress[..Min(|progress|, Batches(n, b))] == progress;
        return Err(Cancelled(i)), calls, progress;
      }
      ChunkLength(order, b, i);
      var sent, filed := SendBatch(provider, texts, order, b, i, dimension, vectors, calls);
      calls := calls + [sent];
      assert progress[..Min(|progress|, Batches(n, b))] == progress;
      if filed.Err? {
        return Err(filed.error), calls, progress;
      }
      vectors := filed.value;
      processed := processed + |sent|;
      BatchIndex(i, b);
      progress := progress + [Progress(fieldID, start / b + 1, total, |sent|, processed, n, false)];
      Products(i, b);
      BatchesMeaning(n, b, i + 1);
      start := start + b;
    }
    progress := progress + [Progress(fieldID, total, total, 0, processed, n, true)];
    assert progress[..Min(|progress|, Batches(n, b))] == progress[..total];
    EverythingProcessed(n, b, |calls|);
    return Ok(vectors), calls, progress;
  }

  /** The canonical form of a field, where it has one. */
  function Canonical(raw: Field): Field {
    match Canonicalize(raw)
    case Ok(field) => field
    case Err(_) => raw
  }

  /**
    BuildFromSourceTexts. resolve is the registry's lookup by provider and model, now the
    service's clock; cancelled says before which batch the context has been cancelled.
   */
  method BuildFromSourceTexts(
    raw: Field, texts: map<string, string>, sourceUpdated: S.Time, force: bool, requested: int, now: S.Time, clock: S.Time,
    resolve: (string, string) -> Option<Provider>, cancelled: nat -> bool)
    returns (r: Result<BuildResult, BuildError>, calls: seq<seq<string>>, progress: seq<Progress>, ghost ids: seq<string>)
    ensures IsOrdered(texts, ids)
    ensures var b := if requested <= 0 then 64 else requested;
            && CallsMade(texts, ids, b, calls)
            && Batches(|ids|, b) >= |calls|
            && Reported(Canonical(raw).id, |ids|, b, progress[..Min(|progress|, Batches(|ids|, b))])
    ensures var b, field := if requested <= 0 then 64 else requested, Canonical(raw);
            r.Ok? && r.value.built ==>
              && resolve(field.provider, field.model).Some?
              && |calls| == Batches(|ids|, b)
              && |progress| == Batches(|ids|, b) + 1
              && progress[Batches(|ids|, b)] == FinalReport(field.id, |ids|, b)
              && Collected(resolve(field.provider, field.model).value, field.dimension, ids, b, calls, |calls|, r.value.vectors)
    ensures var field := Canonical(raw);
            r.Ok? ==>
              && Canonicalize(raw).Ok?
              && (r.value.built <==> S.ShouldBuild(field.lastIndexed, sourceUpdated, field.staleAfterHours, now, clock, force))
              && r.value.field == BuiltField(field, sourceUpdated, now, r.value.built)
              && (!r.value.built ==> calls == [] && progress == [] && r.value.vectors == map[])
    ensures Canonicalize(raw).Err? ==> r == Err(BadField(Canonicalize(raw).error))
    ensures r.Err? ==> |progress| <= |calls| && Excuse(raw, resolve, cancelled, calls, r.error)
    ensures r.Err? && (r.error.BadField? || r.error.NoProvider? || r.error.ProviderDimension?) ==> calls == [] && progress == []
  {
    hide Batches, Start, Less, Trim, Collected, TextsOf, S.IsStale, Chunk, IsOrdered, Answered, Canonicalize;
    calls, progress := [], [];
    var b: nat := if requested <= 0 then DEFAULT_BATCH else requested;
    var order := SortedIDs(texts);
    ids := order;
    NoCallsMade(texts, order, b);
    var canonical := Canonicalize(raw);
    if canonical.Err? {
      return Err(BadField(canonical.error)), [], [], ids;
    }
    var field := canonical.value;
    if !S.ShouldBuild(field.lastIndexed, sourceUpdated, field.staleAfterHours, now, clock, force) {
      return Ok(BuildResult(field, b, false, map[])), [], [], ids;
    }
    var resolved := resolve(field.provider, field.model);
    if resolved.None? {
      return Err(NoProvider), [], [], ids;
    }
    var provider := resolved.value;
    if provider.dimension != field.dimension {
      return Err(ProviderDimension), [], [], ids;
    }
    var batches;
    batches, calls, progress := RunBatches(field.id, provider, field.dimension, texts, order, b, cancelled);
    if batches.Err? {
      return Err(batches.error), calls, progress, ids;
    }
    field := field.(lastIndexed := now);
    if sourceUpdated != 0 {
      field := field.(sourceUpdated := sourceUpdated);
    }
    return Ok(BuildResult(field, b, true, batches.value)), calls, progress, ids;
  }

  function BuiltField(field: Field, sourceUpdated: S.Time, now: S.Time, built: bool): Field {
    if !built then field
    else field.(lastIndexed := now, sourceUpdated := if sourceUpdated != 0 then sourceUpdated else field.sourceUpdated)
  }

  /** Why a run failed. */
  predicate Excuse(raw: Field, resolve: (string, string) -> Option<Provider>, cancelled: nat -> bool, calls: seq<seq<string>>, e: BuildError) {
    var field := Canonical(raw);
    var resolved := resolve(field.provider, field.model);
    match e
    case BadField(fault) => Canonicalize(raw) == Err(fault)
    case NoProvider => resolved.None?
    case ProviderDimension => resolved.Some? && resolved.value.dimension != field.dimension
    case Cancelled(batch) => batch == |calls| && cancelled(batch)
    case ProviderFailed(call) => resolved.Some? && call + 1 == |calls| && resolved.value.respond(call, calls[call]).Err?
    case VectorCount(call) => resolved.Some? && call + 1 == |calls| && !Answered(resolved.value, field.dimension, call, calls[call])
    case VectorDimension(call, at) =>
      resolved.Some? && call + 1 == |calls| && !Answered(resolved.value, field.dimension, call, calls[call])
  }

  // ---------- With a provider that treats every text alike ----------

  ghost predicate Pointwise(provider: Provider, f: string -> seq<real>) {
    forall call: nat, sent: seq<string> ::
      provider.respond(call, sent) == Ok(seq(|sent|, i requires 0 <= i < |sent| => f(sent[i])))
  }

  lemma InSomeChunk(ids: seq<string>, b: nat, k: nat, p: nat) returns (i: nat, j: nat)
    requires p < Start(|ids|, b, k) <= |ids|
    ensures i < k && j < |Chunk(ids, b, i)| && Chunk(ids, b, i)[j] == ids[p]
    decreases k
  {
    hide Start;
    StartsAtZero(|ids|, b);
    StartsAscend(|ids|, b, k - 1);
    if p < Start(|ids|, b, k - 1) {
      i, j := InSomeChunk(ids, b, k - 1, p);
    } else {
      i, j := k - 1, p - Start(|ids|, b, k - 1);
    }
  }

  lemma PointwiseVector(provider: Provider, dimension: int, texts: map<string, string>, ids: seq<string>, b: nat,
                        calls: seq<seq<string>>, vectors: map<string, seq<real>>, f: string -> seq<real>, p: nat)
    requires b > 0 && IsOrdered(texts, ids) && CallsMade(texts, ids, b, calls) && |calls| == Batches(|ids|, b)
    requires Collected(provider, dimension, ids, b, calls, |calls|, vectors) && Pointwise(provider, f)
    requires p < |ids|
    ensures ids[p] in vectors && vectors[ids[p]] == f(texts[ids[p]])
  {
    hide Start, Less, Trim, Batches;
    BatchesMeaning(|ids|, b, |calls|);
    EverythingProcessed(|ids|, b, |calls|);
    var i, j := InSomeChunk(ids, b, |calls|, p);
    var chunk := Chunk(ids, b, i);
    assert calls[i] == TextsOf(texts, chunk);
    assert provider.respond(i, calls[i]).value[j] == f(calls[i][j]);
  }

  /**
    With a provider that maps each text by itself, the finished vectors are those of
    exactly the ids that are not blank, whatever the batch size.
   */
  lemma PointwiseBuild(provider: Provider, dimension: int, texts: map<string, string>, ids: seq<string>, b: nat,
                       calls: seq<seq<string>>, vectors: map<string, seq<real>>, f: string -> seq<real>)
    requires b > 0 && IsOrdered(texts, ids) && CallsMade(texts, ids, b, calls) && |calls| == Batches(|ids|, b)
    requires Collected(provider, dimension, ids, b, calls, |calls|, vectors) && Pointwise(provider, f)
    ensures vectors == map id | id in texts && Trim(id) != "" :: f(texts[id])
  {
    hide Less, Trim, Batches, Start, Pointwise, Chunk, TextsOf, Answered;
    BatchesMeaning(|ids|, b, |calls|);
    EverythingProcessed(|ids|, b, |calls|);
    assert ids[..|ids|] == ids;
    forall id
      ensures id in vectors <==> id in texts && Trim(id) != ""
    {
    }
    forall id | id in vectors
      ensures vectors[id] == f(texts[id])
    {
      var p :| 0 <= p < |ids| && ids[p] == id;
      PointwiseVector(provider, dimension, texts, ids, b, calls, vectors, f, p);
    }
  }

  /** Nothing can go wrong with such a provider of the right dimension, on a valid field and an open context. */
  lemma PointwiseHasNoExcuse(raw: Field, provider: Provider, resolve: (string, string) -> Option<Provider>, cancelled: nat -> bool,
                             calls: seq<seq<string>>, e: BuildError, f: string -> seq<real>)
    requires Canonicalize(raw).Ok? && provider.dimension == Canonical(raw).dimension
    requires resolve(Canonical(raw).provider, Canonical(raw).model) == Some(provider)
    requires Pointwise(provider, f) && (forall t :: |f(t)| == Canonical(raw).dimension) && (forall i :: !cancelled(i))
    ensures !Excuse(raw, resolve, cancelled, calls, e)
  {
    hide Canonicalize;
  }
}
