# Quackcess, verified

A Dafny model of the parts of Quackcess where meaning, state and concurrency meet, with
proofs of what they promise. `dafny verify dfyconfig.toml` checks everything.

**Canvas to SQL** (`CanvasModel`, `CanvasNormalForm`, `CanvasEdits`, `CanvasBuffers`,
`CanvasRewriting`, `CanvasAcceptance`, `CanvasEditRuns`, `CanvasDocuments`,
`DocumentRewriting`, `CanvasBridge`, `CanvasCompile`, `CanvasCoverage`, `CanvasMeaning`,
`CanvasJoins`, `QueryGraph`, `GraphAcceptance`, `Sql`, `SqlReader`, `JoinAliases`,
`Predicates`, `SearchConditions`, `StatementReader`, `JoinSemantics`, `OuterJoins`). A
canvas of table nodes and join edges is normalised in place, edited, turned into a left-deep
query graph, scope-checked and printed. The model gives the canvas, the graph and the
printed text each a meaning of their own: a reader recovers the graph from the text, a
database gives a join chain its rows, and Kleene logic gives predicates their truth. The
main results say that these meanings agree.

**Shell and store** (`CanvasCommands`, `CanvasText`, `PlainCodec`, `ShellModel`,
`ShellRuns`, `ShellStates`, `ShellMeaning`, `CanvasStore`, `CanvasIds`, `CanvasTerminal`,
`CanvasSession`, `CanvasSamples`). The shell keeps a draft and a saved copy and talks to the
canvas store through printed commands, which the terminal reads and the shell reads again.
Each side has its own invariant over all runs; together they stay in step.

**Event bus** (`EventBus`, `EventBusRuns`, `EventBusCalls`, `EventBusMeaning`). Publishers,
subscribers, cancellers and receivers as atomic steps under a read-write lock, in every
interleaving; the same operations as methods of an object, and the step from one to the
other.

**Vectors** (`Words`, `Mixing`, `MixingZeros`, `Reals`, `Search`, `Ranking`,
`CosineMeaning`, `VectorFields`, `VectorBuild`, `BuildMeaning`, `ProviderRegistry`,
`Staleness`, `BuildRuns`, `EmbeddingResponse`). 64-bit mixing on numbers below 2^64, cosine
and ranking, batched builds, reassembly of out-of-order replies, and the staleness window
with its 64-bit durations.

**Project archives** (`Paths`, `PathLaws`, `Sorting`, `Archive`, `ArchivePaths`,
`ProjectArchive`, `ArchiveLaws`, `ArchiveUpserts`, `ArchiveRoots`). An archive is a list of
entries; writing, indexing, reading and putting one artifact in.

`Text`, `Values`, `Picking` and `Results` hold the strings, SQL values, sublists and outcomes
they share.

How the program's world is rendered:

- Text is ASCII with Go's trimming, case folding and byte order defined in `Text`.
- Floating-point numbers are reals; `math.Sqrt` is a function that is a square root. Words
  of 64 bits and durations wrap around explicitly.
- JSON is a `Codec`: any encoder and decoder that undo each other on the numbers they can
  write; `PlainCodec` is one. Payloads of actions and artifact specs are given decoded.
- Slices changed in place are arrays; maps walked by `range` are walked in any order.
- What comes from outside is a parameter: answers of the catalog and the terminal, the
  clock, the provider, cancellation.
- An algorithm that changes things step by step is a method with loops, proved against a
  function, about which the laws are stated.

## Where the program does less than one might expect

Each is stated exactly by the member named, and shown by an input where one is named too.

- Deleting an edge removes every case variant of its id, although ids are otherwise compared
  exactly (`CanvasEdits.DeleteRemovesOneEdgeIff`, `CanvasEdits.DeleteRemovesCaseVariants`).
- The key that removes duplicate fields runs source, column and alias together, so an alias
  with "." can hide a field of an unjoined node (`CanvasCoverage.CompilesUncoveredIff`,
  `CanvasCoverage.ClashCompilesUncovered`).
- LIKE and CONTAINS with a NULL value search for the text of nil
  (`Predicates.ConditionMeansPredicateIff`, `Predicates.NullPatternIsNotUnknown`), and a
  value with wildcards is not searched for literally (`Predicates.ContainsIsSubstringIff`,
  `Predicates.PercentFindsEverything`).
- A right alias with white space at its ends is declared as it stands and trimmed in ON
  (`JoinAliases.PrintedGraphReadsBackIff`, `JoinAliases.SpacedAliasNamesNothing`).
- The terminal takes names with spaces, the shell does not follow them
  (`CanvasSession.DeletingActiveClearsIff`, `CanvasSamples.SpacedNameStaysOpen`); renaming
  onto a used name can part the two (`CanvasSession.RenameKeepsMirrorIff`,
  `CanvasSamples.RenameOntoUsedNameParts`); a new canvas cannot be opened
  (`CanvasSession.NewCanvasDoesNotOpen`).
- The cancel function of a nil event bus panics the second time
  (`EventBusCalls.NilCancelPanicsIff`).
- More than 2562047 hours overflow the staleness window (`Staleness.FullWindowIff`,
  `Staleness.OverflowingWindowIsStaleAtOnce`).
- Two provider names can share a key when one with the separator behind it begins the
  other, as "x" and "x:" do (`ProviderRegistry.NamesClashIff`,
  `ProviderRegistry.SecondProviderRefused`).
- After an upsert an archive may no longer index: because another artifact has the id, or
  because the id climbs out of the root to a path with white space in front
  (`ArchiveUpserts.UpsertKeepsIndexIff`, `ArchiveUpserts.CreatedArchiveStaysIndexableIff`,
  `ArchiveRoots.SharedIdBreaksIndex`, `ArchiveRoots.EscapingIdBreaksIndex`).
- Under a root such as "." or "m" the manifest of the project is taken for an artifact
  (`ArchiveRoots.NewProjectReindexesIff`, `ArchiveRoots.SomeRootsIndexManifest`); under "."
  an artifact can get the payload of another (`ProjectArchive.Create`,
  `ArchiveRoots.DotRootMixesPayloads`); under "./ x" one can be lost to the index
  (`ArchiveLaws.ArchiveReindexesIff`, `ArchiveRoots.SpacedRootLosesArtifact`).

## Model

| member | source | states |
|---|---|---|
| `CanvasNormalForm.NormalizeSpecAccepts` | internal/query/canvas_model.go:294-398 | A spec is accepted exactly when its normal form (trimmed, defaults filled, geometry clamped, selections filtered) is well formed, and the normal form is what comes back. |
| `CanvasAcceptance.NormalizeAcceptsIff` | internal/query/canvas_model.go:294-398 | Exactly which given specs are accepted, on the raw text: table nodes with ids and tables, ids and aliases (case aside) not taken, join edges of a known spelling whose ends are nodes with the columns (case aside, or nodes without fields), non-empty edge ids not taken. |
| `CanvasRewriting.NormalizeSpecMeaning` | internal/query/canvas_model.go:294-398 | What an accepted spec turns into, field by field on the given one: texts trimmed, a blank alias the trimmed table, negative coordinates 0, sizes 240 by 140 if not positive and at least 80, the named fields in order, every requested known field at its first occurrence, edges in one case, the version filled in. |
| `CanvasRewriting.RewritingIsUnique` | internal/query/canvas_model.go:306-348 | That description leaves one node only. |
| `CanvasNormalForm.WellFormedIsFixpoint` | internal/query/canvas_model.go:294-398 | What normalising returns is well formed: unique ids, aliases unique up to case, clamped geometry, selections a repetition-free part of the known fields, edges resolving to nodes and columns; and the well-formed specs are exactly the fixpoints. |
| `CanvasNormalForm.RewritingKeepsOutcome` | internal/query/canvas_model.go:308-395 | An argument of which any nodes and edges were already rewritten normalises to the same result or the same error. |
| `CanvasNormalForm.EdgesAccepted` | internal/query/canvas_model.go:350-395 | The edge loop accepts exactly the edges that resolve and keep non-empty ids unique, and returns them rewritten, in order. |
| `CanvasBuffers.NormalizeCanvasSpec` | internal/query/canvas_model.go:294-398 | The loops over the arrays compute the normal form; whatever happens, the arrays are left partly rewritten and still normalise to the same outcome. |
| `CanvasBuffers.NormalizeNodesInPlace` | internal/query/canvas_model.go:306-348 | The node loop writes normal forms into the array up to the node it refuses, and reports the first complaint. |
| `CanvasBuffers.NormalizeEdgesInPlace` | internal/query/canvas_model.go:350-395 | The edge loop writes normal forms into the array up to the edge it refuses, and reports the first complaint. |
| `CanvasBuffers.FilterSelectedFields` | internal/query/canvas_model.go:518-543 | The loop keeps the selections that name a known field, each case-insensitive spelling once, in order. |
| `CanvasBuffers.MoveCanvasNode` | internal/query/canvas_model.go:112-137 | The in-place move computes the move defined on values. |
| `CanvasBuffers.SetCanvasNodeSelectedFields` | internal/query/canvas_model.go:140-164 | The in-place selection computes the selection defined on values. |
| `CanvasBuffers.AddCanvasNode` | internal/query/canvas_model.go:167-185 | Adding a node to the arrays computes the addition defined on values. |
| `CanvasBuffers.AddCanvasEdge` | internal/query/canvas_model.go:188-204 | Adding an edge to the arrays computes the addition defined on values. |
| `CanvasBuffers.PatchCanvasEdge` | internal/query/canvas_model.go:207-229 | The in-place patch computes the patch defined on values. |
| `CanvasBuffers.DeleteCanvasEdge` | internal/query/canvas_model.go:232-256 | The filtering loop computes the deletion defined on values, into a fresh array of edges. |
| `CanvasEdits.MoveNodeMeaning` | internal/query/canvas_model.go:112-137 | A move fails exactly on an unknown id; otherwise only the coordinates of that node change, clamped at 0. |
| `CanvasEdits.SetNodeFieldsMeaning` | internal/query/canvas_model.go:140-164 | A selection fails exactly on an unknown id; otherwise only that node changes, to the known and distinct part of the request. |
| `CanvasRewriting.AddedNodeMeaning` | internal/query/canvas_model.go:167-185 | A node is added exactly when it names an id and a table, is of no other kind, and neither its id nor its alias (the table if blank) is in use up to case; the spec only grows, by the node rewritten field by field. |
| `CanvasEdits.AddEdgeMeaning` | internal/query/canvas_model.go:188-204 | An edge is added exactly when its id is non-blank and new up to case and it resolves; the spec only grows by its stored form. |
| `CanvasEdits.PatchEdgeMeaning` | internal/query/canvas_model.go:207-229 | A patch succeeds exactly when the id exists and the new edge resolves; only that edge changes. |
| `CanvasRewriting.AddedEdgeMeaning` | internal/query/canvas_model.go:188-229 | An added edge goes last, a patched one replaces the edge of its id; both are stored with their names trimmed, kind and join type in one case, and the descriptive texts trimmed. |
| `CanvasEdits.DeleteEdgeMeaning` | internal/query/canvas_model.go:232-256 | A deletion fails exactly when no edge id is a case variant of the given one; otherwise exactly those edges go and the rest keep their order. |
| `CanvasEdits.DeleteRemovesOneEdgeIff` | internal/query/canvas_model.go:232-256 | Deleting the id of an edge removes that edge alone exactly when no other edge id is a case variant of it. |
| `CanvasEdits.DeleteRemovesCaseVariants` | internal/query/canvas_model.go:232-256 | Counterexample: on a well-formed canvas with edges "e" and "E", deleting either removes both. |
| `CanvasEdits.AddThenDeleteRestores` | internal/query/canvas_model.go:188-256 | Adding an edge and deleting its id restores the normalised spec. |
| `CanvasEdits.LastPatchWins` | internal/query/canvas_model.go:207-229 | Of two successful patches of one edge only the last one shows, and the second succeeds or fails as if the first had not been made. |
| `CanvasEdits.RunEditsWellFormed` | internal/query/canvas_model.go:112-256 | Every sequence of edits from a well-formed canvas ends in a well-formed canvas. |
| `CanvasEditRuns.RunEditsLeaves` | internal/query/canvas_model.go:112-256 | Over every sequence of edits the nodes keep their places, and every node and edge that no edit of the run names is unchanged and in the same order. |
| `CanvasDocuments.DocumentsAreFixpoints` | internal/query/canvas_model.go:401-421 | A normalised document is well formed, with tags distinct in lower case and a selection that points at existing elements only; those documents are exactly the fixpoints. |
| `DocumentRewriting.NormalizeDocumentMeaning` | internal/query/canvas_model.go:401-421 | What a document turns into: texts trimmed, each tag once in lower case at its first place, the selection cut to the existing elements, each once, in order. |
| `CanvasDocuments.FilterSelectionIDs` | internal/query/canvas_model.go:566-587 | The loop keeps the trimmed ids of existing elements, each once, in order. |
| `CanvasDocuments.NormalizeTags` | internal/query/canvas_model.go:460-478 | The loop keeps the tags lower-cased and trimmed, each once, in order. |
| `CanvasBridge.QueryGraphFromCanvas` | internal/query/canvas_sql_bridge.go:9-58 | The loops over nodes and edges build the graph of the normalised canvas: first node as source, one join per edge in list order, the distinct fields. |
| `CanvasBridge.DedupeFieldRefs` | internal/query/canvas_sql_bridge.go:116-131 | The loop with its seen map keeps the first reference of each key. |
| `CanvasBridge.FieldsFromCanvasNodes` | internal/query/canvas_sql_bridge.go:81-97 | The nested loops list the references of all nodes in node order, then field order. |
| `CanvasCompile.EdgeJoinMeaning` | internal/query/canvas_sql_bridge.go:34-54 | The join of a resolved edge puts the table and alias of its to-node onto the alias of its from-node, with the columns of the edge, and is already normal. |
| `CanvasJoins.CanvasQueryMeaning` | internal/query/canvas_sql_bridge.go:9-79 | What the SQL of a canvas says, from what was drawn: the first node as source; in list order one join for each edge, on its nodes, columns and the kind it spells ("LEFT JOIN" exactly for LEFT and LEFT JOIN in any case, and so for INNER, RIGHT and FULL); the fields the nodes offer, each key once; the limit. |
| `CanvasJoins.RawJoinKinds` | internal/query/canvas_model.go:604-618 | The spelling of the drawn edge, case and surrounding space aside, decides; what is compiled is the normalised canvas. |
| `CanvasJoins.NodeFieldsMeaning` | internal/query/canvas_sql_bridge.go:81-114 | A node without a selection offers all its fields, one with a selection exactly the last field of each selected name, in order. |
| `CanvasJoins.FirstNodeSurvives` | internal/query/canvas_sql_bridge.go:34-54 | A compiled canvas of LEFT and FULL edges shows every row of its first node. |
| `CanvasJoins.ToNodeSurvives` | internal/query/canvas_sql_bridge.go:34-54 | A RIGHT or FULL edge shows every row of its to-node when only LEFT and FULL edges come after it. |
| `CanvasCompile.CompilesIff` | internal/query/canvas_sql_bridge.go:60-79 | A well-formed canvas compiles exactly when its edges, in list order, each attach a fresh node to the part reached from the first node, and every named field left after removing duplicates comes from a reached node. |
| `CanvasCoverage.CompilesIffStraysHidden` | internal/query/canvas_sql_bridge.go:20-131 | Any well-formed canvas compiles exactly when its edges grow a tree from the first node in list order, and every named reference of a node outside the tree comes after a reference with the same duplicate key that is not of that sort. |
| `CanvasCoverage.CompilesUncoveredIff` | internal/query/canvas_sql_bridge.go:20-131 | It compiles although a node that contributes a named field is not joined exactly when there are such references and all come after one with their key. |
| `CanvasCoverage.CompilesIffTreeCoversFields` | internal/query/canvas_sql_bridge.go:20-79 | Where different references have different duplicate keys: it compiles exactly when the edges grow a tree from the first node and every node contributing a named field is in it. |
| `CanvasCoverage.DedupeKeepsFirst` | internal/query/canvas_sql_bridge.go:116-131 | Exactly the first reference of each key is kept. |
| `CanvasCoverage.DedupeKeepsAllIff` | internal/query/canvas_sql_bridge.go:116-131 | Removing duplicates loses no reference exactly when different references have different keys. |
| `CanvasCoverage.SeparatorFreeKeysDistinct` | internal/query/canvas_sql_bridge.go:123-123 | Aliases without "." and columns without "@" give different references different keys. |
| `CanvasCoverage.ClashCompilesUncovered` | internal/query/canvas_sql_bridge.go:116-131 | Counterexample: a canvas compiles although a node that contributes a named field is not joined. |
| `CanvasCompile.CompiledIsTree` | internal/query/canvas_sql_bridge.go:34-54 | A compiled canvas declares each alias once and before every ON and SELECT that uses it; its joins form a tree with one alias more than joins, so there are fewer edges than nodes. |
| `CanvasMeaning.CanvasSqlReadsBack` | internal/query/canvas_sql_bridge.go:60-79 | The SQL of a canvas without "*" fields reads back as its first node, the join of every edge in order, the distinct fields and the limit. |
| `CanvasMeaning.CanvasRowsMeaning` | internal/query/canvas_sql_bridge.go:34-54 | With INNER edges the rows are exactly the choices of one row per joined node under which every edge equates two values that are not NULL, each choice once. |
| `CanvasMeaning.EdgeOrderIsFree` | internal/query/canvas_sql_bridge.go:34-54 | Two orders of the same INNER edges that both compile give the same rows, each as often. |
| `QueryGraph.NormalizeGraph` | internal/query/query.go:85-164 | The loops with their set of declared aliases compute the normalised graph or the first complaint. |
| `GraphAcceptance.NormalizeAcceptsIff` | internal/query/query.go:85-240 | Exactly which graphs are accepted, by places: complete joins that hang a new alias on an earlier one, references to visible aliases, known operators with the values they need, not both raw condition and predicates; and what an accepted one becomes. |
| `QueryGraph.NormalizedIsScoped` | internal/query/query.go:99-164 | A normalised graph hangs each new alias on one declared before it, and every field, grouping, ordering and structured predicate refers to a declared alias. |
| `QueryGraph.ScopedJoinsCount` | internal/query/query.go:99-120 | Scoped joins declare exactly as many aliases as there are joins, none of them given before. |
| `QueryGraph.ScopedJoinsDistinct` | internal/query/query.go:99-120 | No two joins of a scoped chain declare the same alias. |
| `JoinSemantics.InnerChainMeaning` | internal/query/sql.go:32-39 | Evaluating a scoped chain of INNER joins yields exactly the bindings of one row per alias that satisfy every ON clause. |
| `JoinSemantics.EvaluateNoDuplicates` | internal/query/sql.go:32-39 | Each such binding is produced once. |
| `JoinSemantics.InnerOrderIsFree` | internal/query/sql.go:32-39 | Any two scoped orders of the same INNER joins produce the same bag of rows. |
| `JoinSemantics.LeftJoinsKeepSource` | internal/query/sql.go:32-39 | A chain of LEFT joins shows every row of its source. |
| `OuterJoins.SourceSurvives` | internal/query/sql.go:32-39 | LEFT and FULL joins in any mixture show every row of the source. |
| `OuterJoins.JoinedSurvives` | internal/query/sql.go:32-39 | A RIGHT or FULL join shows every row of its table when only LEFT and FULL joins come after it. |
| `Sql.GenerateSQL` | internal/query/sql.go:13-75 | The builder loops print the text and collect the arguments of the value-level printer. |
| `Sql.RenderPredicates` | internal/query/sql.go:77-127 | The loop over predicates grows the conditions and the argument list together. |
| `SqlReader.QuoteReads` | internal/query/sql.go:256-258 | A delimited identifier reads back whatever it contains; quotes are doubled as in section 5.2 of ISO/IEC 9075-2. |
| `SqlReader.PrintedGraphReadsBack` | internal/query/sql.go:13-69 | For graphs without raw SQL, predicates and "*", with trimmed aliases, a reader of the text recovers source, joins, fields, grouping, ordering and limit, whatever the identifiers contain. |
| `SqlReader.PrintingIsInjective` | internal/query/sql.go:13-69 | Two such graphs print alike only when they normalise to the same query. |
| `JoinAliases.PrintedGraphReadsBackIff` | internal/query/sql.go:241-254 | Whatever the right aliases of the joins, the text reads back exactly when none of them has white space at its ends. |
| `JoinAliases.SpacedAliasNamesNothing` | internal/query/sql.go:241-254 | Counterexample: the alias " u" is accepted and declared, but the ON clause names "u", which is not declared. |
| `Predicates.AcceptedIsPrintable` | internal/query/query.go:127-140 | An accepted structured predicate on a column other than "*" names a declared source and has the values its operator needs, and printing it succeeds. |
| `Predicates.ConditionReads` | internal/query/sql.go:77-162 | A printed condition, negation rewriting included, takes exactly its own arguments and reads for every row as the predicate in three-valued logic, a NULL pattern of LIKE or CONTAINS being the text it is printed as. |
| `Predicates.WhereClauseMeaning` | internal/query/sql.go:77-162 | For every accepted list of structured predicates printing succeeds, the clause takes exactly its parameters, and bound left to right it reads as the Kleene conjunction of what is printed; without NULL patterns that is the conjunction of the predicates, with Not as three-valued negation, for NULL operands and IN lists of any length. |
| `StatementReader.StatementReadsBack` | internal/query/sql.go:13-162 | A whole statement with structured predicates is always printed and reads back as source, joins, fields, grouping, ordering and limit together with, under any row, the conjunction printed for its predicates. |
| `SearchConditions.SearchClauseMeaning` | internal/query/sql.go:111-166 | For an accepted LIKE or CONTAINS of a text without wildcards or an integer, the printed clause with its parameters is true exactly on the rows whose text contains it, false on the others, the other way round under Not, unknown on NULL. |
| `SearchConditions.DigitsAreDecimal` | internal/query/sql.go:164-166 | The digits searched for are the ones without a leading zero that read back as the integer. |
| `Predicates.ConditionMeansPredicateIff` | internal/query/sql.go:111-116 | The one exception, exactly: LIKE or CONTAINS with a NULL value, which is printed as the text of nil instead of being unknown. |
| `Predicates.NullPatternIsNotUnknown` | internal/query/sql.go:111-116 | Counterexample: LIKE with a NULL value is printed, and on a text it is true or false instead of unknown. |
| `Predicates.ContainsIsSubstringIff` | internal/query/sql.go:164-166 | Searching with a wrapped value finds exactly the texts that contain it if and only if the value has no wildcard of its own. |
| `Predicates.PercentFindsEverything` | internal/query/sql.go:164-166 | Counterexample: looking for "%" finds "x". |
| `CanvasCommands.SaveRoundTrip` | internal/appstate/state.go:1188-1194 | A printed save command is read back unchanged by both readers, for a non-empty name without white space and a spec from "{" to "}". |
| `CanvasCommands.SaveParsersAgree` | internal/appstate/state.go:959-977 | On every input the shell and the terminal read a save command alike. |
| `CanvasCommands.RenameParsersAgree` | internal/appstate/state.go:1118-1128 | On every input the shell and the terminal read a rename command alike. |
| `CanvasCommands.RenameRoundTrip` | internal/terminal/terminal.go:513-526 | A printed rename command reads back as its two names. |
| `CanvasCommands.NewParsersAgreeIff` | internal/appstate/state.go:1130-1144 | On every input the shell follows a creation the terminal accepts exactly when the name holds no white space, and then reads the same name. |
| `CanvasCommands.DeleteParsersAgreeIff` | internal/appstate/state.go:1146-1158 | A printed deletion is read whole by the terminal; the shell reads it exactly when the name holds no white space. |
| `CanvasText.CanonicalTextIsCanonical` | internal/appstate/state.go:1102-1116 | Every accepted text becomes the text of a well-formed canvas, and such a text is its own canonical form. |
| `CanvasText.EditTextMeaning` | internal/appstate/state.go:221-248 | Editing a canonical text is editing the canvas it stands for, and gives a canonical text. |
| `ShellStates.ShellState.SetActiveCanvas` | internal/appstate/state.go:169-201 | The assignments amount to the step on values, for every answer of the catalog. |
| `ShellStates.ShellState.SetCanvasDraft` | internal/appstate/state.go:203-219 | The assignments amount to the step on values; a refused text changes no field. |
| `ShellMeaning.SetDraftMeaning` | internal/appstate/state.go:203-219 | Setting the draft succeeds exactly when a canvas is active and the text stands for one; then the draft is the text of that canvas, dirty if it differs from the saved one, and the other fields are as they were; otherwise nothing changes. |
| `ShellMeaning.OpenMeaning` | internal/appstate/state.go:169-201 | Opening a canvas: all fields in the four ways it can go. |
| `ShellMeaning.EditActionMeaning` | internal/appstate/state.go:221-289 | A drawing action succeeds exactly when there is a draft and the edit its payload asks for succeeds on the canvas of the draft; then the draft is the text of the edited canvas, otherwise nothing changes. |
| `ShellMeaning.RevertAndClearMeaning` | internal/appstate/state.go:291-329 | Reverting brings the saved text back, clearing empties every field. |
| `ShellMeaning.NamePayloadsMeaning` | internal/appstate/state.go:994-1100 | How names come in payloads: as text or JSON, a pair as two words or JSON, the space around them aside. |
| `ShellMeaning.ConsoleMeaning` | internal/appstate/state.go:589-594 | What toggling, setting, Escape, F12 and other keys do to the console, shared or not. |
| `ShellMeaning.CanonicalTextMeaning` | internal/appstate/state.go:1102-1116 | A text is accepted exactly when it decodes to a canvas that normalises, and its canonical form decodes to that normal form. |
| `ShellStates.ShellState.ApplyCanvasDraftMutation` | internal/appstate/state.go:221-248 | The assignments amount to the step on values; a refused edit changes no field. |
| `ShellStates.ShellState.RevertCanvasDraft` | internal/appstate/state.go:291-303 | The assignments amount to the step on values. |
| `ShellStates.ShellState.ApplyCanvasTerminalSideEffects` | internal/appstate/state.go:783-838 | Following a command that did not fail amounts to the step on values. |
| `ShellStates.ShellState.Perform` | internal/appstate/state.go:585-781 | Dispatching any action of the bus moves the canvas and console fields as the step on values does, sends the terminal exactly the command of that action, and keeps the invariant of every run. |
| `ShellRuns.DispatchConsistent` | internal/appstate/state.go:585-838 | Every action keeps the invariant of draft, saved copy, dirty flag and validation, whatever catalog and terminal answer. |
| `ShellRuns.EveryRunConsistent` | internal/appstate/state.go:169-329 | After every run: dirty exactly when draft differs from saved; no active canvas means empty and clean; draft and saved are each empty or canonical; a non-empty draft carries no validation message. |
| `ShellRuns.EditDraftMeaning` | internal/appstate/state.go:221-248 | An edit succeeds exactly when there is a draft whose canvas admits it; then only draft, flag, check and status change, otherwise nothing does. |
| `ShellRuns.FailedDraftingChangesNothing` | internal/appstate/state.go:203-289 | A failed draft edit leaves the shell as it was, and no draft edit touches the active name or the saved copy. |
| `ShellRuns.RevertUndoesDrafting` | internal/appstate/state.go:291-303 | After any run of draft edits, reverting brings back the saved canvas, clean. |
| `ShellRuns.PayloadsAreFaithful` | internal/appstate/state.go:994-1100 | The payload parsers change no outcome: an accepted payload has exactly the effect it asks for, and a refused one would have failed on every canvas. |
| `ShellRuns.RunSendsCompiledDraft` | internal/appstate/state.go:1160-1182 | Running the canvas sends the terminal exactly the SQL of the draft, limited to 200 rows, is refused exactly when there is no draft or it does not compile, and changes only the status. |
| `CanvasStore.MakeSlug` | internal/canvasservice/canvas_artifact_service.go:207-230 | The builder loop computes the slug. |
| `CanvasStore.SlugShape` | internal/canvasservice/canvas_artifact_service.go:207-230 | A slug is never empty, has only lower-case letters, digits, dashes and underscores, and no dash or underscore at either end. |
| `CanvasIds.SlugMeaning` | internal/canvasservice/canvas_artifact_service.go:207-230 | The slug is what is kept of the lower-case trimmed name from its first letter or digit to its last: letters, digits, dashes and underscores as they are, spaces as dashes; "canvas" if there is none. |
| `CanvasStore.CandidatesDiffer` | internal/canvasservice/canvas_artifact_service.go:191-205 | The ten ids tried for a name are ten different ids. |
| `CanvasStore.CreateDraftMeaning` | internal/canvasservice/canvas_artifact_service.go:79-116 | A draft is created exactly when the name is new and one of its ten ids is free; the table only grows, by one row at version 1, and ids and names stay unique. |
| `CanvasIds.DraftGetsFirstFreeId` | internal/canvasservice/canvas_artifact_service.go:79-116 | A new canvas gets the first of the ten ids that is free, and the empty canvas. |
| `CanvasStore.RenameMeaning` | internal/canvasservice/canvas_artifact_service.go:118-134 | A rename changes the name and version of one row; names stay unique exactly when no other row has the new name. |
| `CanvasStore.DeleteMeaning` | internal/canvasservice/canvas_artifact_service.go:136-149 | A deletion removes exactly the row of that name; the others keep their order. |
| `CanvasStore.SaveMeaning` | internal/canvasservice/canvas_artifact_service.go:151-179 | A save succeeds exactly for an existing name and an acceptable spec; it stores the canonical text in that row, counts the version, and changes nothing else. |
| `CanvasTerminal.CanvasArtifactService.CreateDraftCanvas` | internal/canvasservice/canvas_artifact_service.go:79-116 | The retry loop on the table computes the creation defined on values. |
| `CanvasTerminal.CanvasArtifactService.SaveCanvasSpec` | internal/canvasservice/canvas_artifact_service.go:151-179 | Saving on the table computes the save defined on values; a refused save changes nothing. |
| `CanvasTerminal.CanvasArtifactService.RenameCanvas` | internal/canvasservice/canvas_artifact_service.go:118-134 | Renaming on the table computes the rename defined on values; a refused one changes nothing. |
| `CanvasTerminal.CanvasArtifactService.DeleteCanvas` | internal/canvasservice/canvas_artifact_service.go:136-149 | Deleting on the table computes the deletion defined on values; a refused one changes nothing. |
| `CanvasTerminal.CanvasArtifactService.RunCanvasCommand` | internal/terminal/terminal.go:159-243 | A command text does to the table what its reading says, and to nothing else. |
| `CanvasTerminal.ExecuteSave` | internal/terminal/terminal.go:213-222 | The printed save command, executed, saves exactly the given spec under the given name. |
| `CanvasTerminal.ExecuteRename` | internal/terminal/terminal.go:193-202 | The printed rename command, executed, renames exactly the given names. |
| `CanvasTerminal.ExecuteDelete` | internal/terminal/terminal.go:203-212 | The printed deletion, executed, deletes exactly the given name, spaces included. |
| `CanvasSession.StepInStep` | internal/appstate/state.go:585-838 | Every admissible action keeps shell and store in step: unique ids and names, saved copy mirrored by the store, versions counting changes. |
| `CanvasSession.ShellFollowsStore` | internal/appstate/state.go:585-838 | Over every run of canvas actions with names free of white space, distinct stored names and unused rename targets: a saved copy in the shell is the canonical form of the stored canvas of the active name, and a canvas made in the run has version 1 plus its saves and renames. |
| `CanvasSession.SaveThenOpenRestores` | internal/appstate/state.go:740-762 | A successful save followed by opening the canvas again shows the draft as it was, now saved. |
| `ShellMeaning.SaveStores` | internal/appstate/state.go:740-762 | Saving the open canvas, where the store has it: its row then holds the draft and one more version, no other row changes, the shell is clean. |
| `ShellMeaning.SaveSends` | internal/appstate/state.go:1188-1194 | Saving sends the draft under the active name, in quotes, and is refused exactly when there is none. |
| `ShellMeaning.CommandsReachStore` | internal/appstate/state.go:666-710 | New, rename and delete do to the store what the service does with the names of their payload. |
| `CanvasSession.AfterTypedSave` | internal/appstate/state.go:796-813 | Following a save typed into the terminal: for the active canvas, draft and saved copy both become the canonical text, clean; for another canvas nothing changes. |
| `CanvasSession.RenameKeepsMirrorIff` | internal/appstate/state.go:681-695 | Dispatching a rename onto a used name keeps shell and store in step exactly when the active canvas is neither of the two or both hold the same canvas. |
| `CanvasSamples.RenameOntoUsedNameParts` | internal/appstate/state.go:681-695 | Counterexample: with two different canvases in store, dispatching the rename of the open one onto the other name parts shell and store. |
| `CanvasSession.DeletingActiveClearsIff` | internal/appstate/state.go:829-836 | Whatever payload names it, deleting the active canvas removes its row, but the shell lets go of it exactly when its name has no white space. |
| `CanvasSamples.SpacedNameStaysOpen` | internal/appstate/state.go:829-836 | Counterexample: after deleting "two words" the row is gone and the shell still shows it. |
| `CanvasSession.NewCanvasDoesNotOpen` | internal/canvasservice/canvas_artifact_service.go:93-101 | A canvas just made has no nodes, so opening it fails and leaves no canvas active. |
| `EventBusRuns.StepKeepsInv` | internal/mcp/events.go:44-87 | Every step of every interleaving keeps the invariant: no panic, lock discipline, registered channels open, bounded buffers, contiguous offers per publisher. |
| `EventBusRuns.NoRunPanics` | internal/mcp/events.go:44-87 | No run of publishers, subscribers, repeated cancels and receivers sends on a closed channel or closes one twice. |
| `EventBusRuns.SubscriberGets` | internal/mcp/events.go:50-58 | In every reachable state what a subscriber received or has buffered from a publisher is an in-order sublist of the events published while it was subscribed, the buffer is within capacity, and an event is missing only if the buffer was full when it was offered. |
| `EventBusRuns.DeliveredAreAuthentic` | internal/mcp/events.go:50-58 | Every delivered message is the event its publisher published at that index. |
| `EventBusMeaning.RunsRecordCalls` | internal/mcp/events.go:25-50 | Over every run, what is on record for a publisher is what it passed, call by call, with the time of the call where an event had none. |
| `EventBusMeaning.SendMeaning` | internal/mcp/events.go:52-58 | In any interleaving a send puts the message behind what a channel with room holds and leaves a full one as it is; no other channel changes. |
| `EventBusRuns.PublisherNeverStuck` | internal/mcp/events.go:52-58 | A publisher that has begun can always go on, however full the channels are, with fewer channels left each time. |
| `EventBusRuns.WriterNeverStuck` | internal/mcp/events.go:71-85 | The holder of the write lock can always go on. |
| `EventBusRuns.CancelAgainIsHarmless` | internal/mcp/events.go:77-85 | Cancelling a removed channel again changes nothing. |
| `EventBusCalls.PublishAnyOrder` | internal/mcp/events.go:44-59 | A publication that is not interrupted offers the event once to each registered channel and to no other, in whatever order the map is walked. |
| `EventBusCalls.SubscribeSteps` | internal/mcp/events.go:66-75 | A subscription that is not interrupted registers one fresh open channel and touches no other. |
| `EventBusCalls.CancelSteps` | internal/mcp/events.go:77-85 | A cancellation that is not interrupted removes and closes its channel and touches no other. |
| `EventBusCalls.PublishedKeepsInv` | internal/mcp/events.go:44-59 | A whole publication keeps the invariant of every interleaving: no panic, bounded buffers, in-order offers. |
| `EventBusCalls.SubscribedKeepsInv` | internal/mcp/events.go:66-75 | So does a whole subscription. |
| `EventBusCalls.CancelledKeepsInv` | internal/mcp/events.go:77-85 | So does a whole cancellation, the first and every later one. |
| `EventBusMeaning.PublishMeaning` | internal/mcp/events.go:44-59 | A whole publication: every subscriber with room gets the event that was passed, every full one keeps what it has. |
| `EventBusMeaning.SubscribeMeaning` | internal/mcp/events.go:66-75 | A subscription opens one empty channel under a new id, of the size asked for or 16, and touches no other. |
| `EventBusMeaning.CancelMeaning` | internal/mcp/events.go:77-85 | Cancelling closes a registered channel, leaves what it buffers, and does nothing the next time. |
| `EventBusCalls.EventBusObject.Publish` | internal/mcp/events.go:44-59 | The loop over the map, in any order, has exactly that effect on the fields and keeps the invariant. |
| `EventBusCalls.EventBusObject.Subscribe` | internal/mcp/events.go:66-75 | A subscription registers a fresh open channel of the requested capacity, 16 by default. |
| `EventBusCalls.EventBusObject.Cancel` | internal/mcp/events.go:77-85 | The closure removes and closes its channel the first time and does nothing afterwards; the invariant stays. |
| `Mixing.SplitmixIsBijection` | internal/vector/cpu_provider.go:110-115 | splitmix64 has an inverse on both sides, so it is a bijection on 64-bit words. |
| `Mixing.StreamsNeverMerge` | internal/vector/cpu_provider.go:92-96 | Two streams agree at a position exactly when they started from the same state. |
| `Mixing.StreamReachesEverything` | internal/vector/cpu_provider.go:92-96 | At every position every word is reached from some start. |
| `Mixing.TextsShareIff` | internal/vector/cpu_provider.go:82-96 | With one seed, two texts share a word of their streams at a position exactly when their hashes are equal, or are 0 and the constant that replaces 0. |
| `Mixing.ScaleInRange` | internal/vector/cpu_provider.go:117-119 | Every scaled value lies in [-1, 1). |
| `Mixing.ScaleAgreesIff` | internal/vector/cpu_provider.go:117-119 | Two words scale alike exactly when their top 53 bits agree. |
| `MixingZeros.NeverZeroTwice` | internal/vector/cpu_provider.go:110-119 | No two successive words of the stream scale to 0. |
| `MixingZeros.EmbeddingIsUnit` | internal/vector/cpu_provider.go:90-108 | Every embedding has length 1, whatever the start and the dimension; an all-zero stream is met in dimension 1 only. |
| `MixingZeros.EmbeddingDirection` | internal/vector/cpu_provider.go:90-108 | Some positive length restores from an embedding the scaled words of the stream, each at its place. |
| `MixingZeros.ScaleMeaning` | internal/vector/cpu_provider.go:117-119 | A word scales to its leading 53 bits as a fraction of 2^52, less 1. |
| `Mixing.StartWithoutSeed` | internal/vector/cpu_provider.go:82-89 | Taking the seed out of the start state leaves the hash, or the constant for a zero hash. |
| `Mixing.EmbedInto` | internal/vector/cpu_provider.go:90-108 | The two passes over the array compute the embedding. |
| `Search.CauchySchwarz` | internal/vector/search.go:95-108 | For vectors of any length the squared dot product is at most the product of the magnitudes. |
| `Search.CosineInRange` | internal/vector/search.go:95-108 | Every score lies in [-1, 1]. |
| `Search.CosineScaleInvariant` | internal/vector/search.go:95-108 | A positive factor on either vector does not change the score. |
| `Search.CosineSimilarity` | internal/vector/search.go:95-108 | The loop with its three accumulators computes the cosine. |
| `CosineMeaning.LawOfCosines` | internal/vector/search.go:95-108 | The squared distance of two vectors is the sum of their squared lengths less twice the score times both lengths. |
| `CosineMeaning.ScoreWithItself` | internal/vector/search.go:95-108 | A vector that is not all zero scores 1 with itself, an all-zero one 0. |
| `CosineMeaning.ScoreWithZeros` | internal/vector/search.go:95-108 | With an all-zero vector on either side the score is 0. |
| `CosineMeaning.UnitDistance` | internal/vector/search.go:95-108 | For vectors of length 1 the squared distance is 2 less twice the score. |
| `Ranking.SearchByVector` | internal/vector/search.go:51-81 | The search refuses exactly an empty query, a negative limit or a candidate of another dimension, and otherwise returns the ranking of all candidates cut to the limit, in whatever order the map is walked. |
| `Ranking.AnswerIsUnique` | internal/vector/search.go:70-80 | There is one such answer only. |
| `Ranking.AnswerMeaning` | internal/vector/search.go:70-80 | The answer is strictly ranked by score and id, holds all candidates or as many as the limit allows, and every candidate left out ranks after every one returned. |
| `CosineMeaning.NearerIsRankedFirst` | internal/vector/search.go:51-81 | Among candidates of length 1, with any returned one the search returns every nearer one too, at an earlier place. |
| `Text.LessMeaning` | internal/vector/search.go:70-75 | Equal scores are ordered by id: a proper beginning first, else by the first character that differs. |
| `VectorFields.CanonicalFieldsAreFixpoints` | internal/vector/model.go:46-94 | An accepted field comes out with trimmed and complete names, the current schema, a vector column, a dimension and a window; the canonical fields are exactly the fixpoints. |
| `BuildMeaning.CanonicalizeMeaning` | internal/vector/model.go:46-94 | Exactly which fields are accepted, and every part of what comes out. |
| `VectorBuild.BuildFromSourceTexts` | internal/vector/orchestration.go:132-257 | On the canonical field: calls are the batches of the sorted non-blank ids in order; a finished build made (n+b-1)/b calls, reported consecutive batches with min(i*b, n) processed and one final done event, and holds one vector per id; a failed one returns no vectors and has one of the listed causes. |
| `BuildMeaning.BuiltFieldMeaning` | internal/vector/orchestration.go:247-256 | A build moves the index time to now and takes over a known source time; a skipped one changes nothing. |
| `BuildMeaning.VectorsMeaning` | internal/vector/orchestration.go:189-217 | The record at place i*b + j has the j-th vector of the i-th answer. |
| `BuildMeaning.ReportMeaning` | internal/vector/orchestration.go:218-246 | The i-th report counts from 1 and says how many records are done in all, just now, and to do. |
| `VectorBuild.BatchesPartition` | internal/vector/orchestration.go:184-203 | The batches partition the ids: in order, none left out, all but the last full. |
| `VectorBuild.PointwiseBuild` | internal/vector/orchestration.go:189-234 | With a pointwise provider the built map is {id -> f(text)} over exactly the non-blank ids, for every batch size. |
| `VectorBuild.PointwiseHasNoExcuse` | internal/vector/orchestration.go:189-234 | With such a provider of the right dimension, a valid field and an open context, no failure is possible. |
| `ProviderRegistry.Registry.Register` | internal/vector/orchestration.go:35-63 | A registration adds one entry under the key of its normalised name and model, or is refused and changes nothing. |
| `ProviderRegistry.RegisterMeaning` | internal/vector/orchestration.go:35-83 | An entry is taken exactly when name and model are not blank, its dimension is positive, it goes by that name, and nothing is found under name and model yet. |
| `ProviderRegistry.NamesClashIff` | internal/vector/orchestration.go:35-87 | Two different provider names as the registry stores them share a key, for some stored models, exactly when the longer one followed by "::" begins with the shorter one followed by "::" and goes on with no white space. |
| `ProviderRegistry.RegisteredIsFound` | internal/vector/orchestration.go:35-83 | Otherwise a lookup finds a new entry for exactly its own name and model, in any case, and every other pair as before. |
| `ProviderRegistry.SecondProviderRefused` | internal/vector/orchestration.go:35-87 | Counterexample: after ("x", ":m") is registered, ("x:", "m") is refused as registered already, and looking it up finds the provider of "x". |
| `ProviderRegistry.SpacedNamesDoNotClash` | internal/vector/orchestration.go:35-87 | "x" and "x:: y" do not clash. |
| `Staleness.WindowIsFullIff` | internal/vector/reindex.go:18-18 | The 64-bit duration is the given number of hours exactly when it is at most 2562047. |
| `Staleness.FullWindowIff` | internal/vector/reindex.go:5-19 | An index without a newer source is only rebuilt after the full window, for all times, exactly when the hours fit. |
| `Staleness.OverflowingWindowIsStaleAtOnce` | internal/vector/reindex.go:5-19 | Counterexample: with 2562048 hours an index is stale at the moment it was made. |
| `Staleness.SkippedOnlyWhenFresh` | internal/vector/orchestration.go:259-270 | A build without force is skipped exactly while the index exists, the source has not moved past it and the window has not passed. |
| `Staleness.BuildsAreSpaced` | internal/vector/orchestration.go:159-167 | Over every run of builds without force with a clock that does not go back, two successive builds are a full window apart unless the source moved past the earlier one. |
| `BuildRuns.DueRequestsAreBuilt` | internal/vector/orchestration.go:159-167 | Over every run there is one build for each request that is due when it comes, in order, with the index time before it. |
| `EmbeddingResponse.Parse` | internal/vector/http_provider.go:153-200 | On indexed data parsing succeeds exactly for as many items as inputs, of the right dimension, with different indices in range; each vector stands at its own index and the result is a permutation of the embeddings; an omitted index is never reported. |
| `EmbeddingResponse.Pigeonhole` | internal/vector/http_provider.go:181-185 | As many different indices as places fill every place. |
| `EmbeddingResponse.PlacementIsInverse` | internal/vector/http_provider.go:165-180 | Every place is named by an item, whose embedding stands there. |
| `ArchiveLaws.ParsedSpecReparses` | internal/project/artifact.go:130-179 | A spec read from a manifest of any accepted version names a known kind and an id, and written as a manifest of the current version it reads back as itself. |
| `PathLaws.ParseSpecMeaning` | internal/project/artifact.go:130-179 | Exactly which manifests are accepted, old and new, and what is read from them. |
| `Paths.CleanIdempotent` | internal/project/pack.go:353-354 | Cleaning a path twice is cleaning it once. |
| `PathLaws.CleanDrops` | internal/project/pack.go:353-354 | Doubled slashes, "." and an element with the ".." behind it make no difference. |
| `PathLaws.CleanLeavesAlone` | internal/project/pack.go:353-354 | A path of proper elements is clean already. |
| `PathLaws.DefaultRootAccepts` | internal/project/pack.go:338-365 | Exactly which names are accepted under the default root, and their canonical paths. |
| `Archive.BuildArtifactIndex` | internal/project/artifact.go:248-287 | The loop over the sorted names succeeds exactly when every artifact is readable and stored where its kind and id say, and no two share a path or an id; it returns their index. |
| `Archive.IndexIsUnique` | internal/project/artifact.go:248-287 | There is one such index, whatever the map order. |
| `ProjectArchive.Create` | internal/project/pack.go:76-120 | Writing succeeds exactly on indexable artifacts; it writes the manifest, the data file and one entry per canonical path, in order, each with the payload of the artifact that has that path exactly when no canonical path is the name of an input with another payload. |
| `ProjectArchive.Project.UpsertArtifact` | internal/project/pack.go:249-305 | The copying loop with its flag computes the upsert on the entry list; a refused artifact changes nothing. |
| `ProjectArchive.UpsertIsMapUpdate` | internal/project/pack.go:249-305 | The payload reads back, every other name reads as before, entries keep their order, at most one is added, and repeating the upsert changes nothing. |
| `ProjectArchive.Project.ReadArtifact` | internal/project/pack.go:227-247 | The loop returns the first entry of that name. |
| `ProjectArchive.Project.ArtifactIndex` | internal/project/report_binding.go:87-115 | Collecting the candidate entries and indexing them succeeds exactly when their payloads are indexable. |
| `ArchivePaths.AcceptedManifestPath` | internal/project/pack.go:338-365 | A manifest path that the archive accepts looks like an artifact to the index; it is its own canonical path exactly when it has no white space at its ends. |
| `ArchivePaths.SoundPath` | internal/project/pack.go:338-365 | The canonical path of a sound artifact ends in manifest.json and, if trimmed, is its own canonical path. |
| `ArchiveLaws.ArchiveReindexesIff` | internal/project/report_binding.go:87-115 | Under any root, what Create writes indexes again to the very index of the inputs exactly when no canonical path has white space at its ends and, where manifest or data file look like artifacts (and are no artifact specs), an artifact of the same path hides them. |
| `ArchiveLaws.ArchiveReindexes` | internal/project/report_binding.go:87-115 | Under the default root, with a data file that does not look like an artifact, every written archive indexes again with the very index of the inputs. |
| `ArchiveLaws.DefaultsAreNoCandidates` | internal/project/pack.go:338-365 | Under the default root neither the manifest nor the default data file looks like an artifact. |
| `ArchiveLaws.DefaultRootIsSteady` | internal/project/pack.go:338-365 | Under the default root Create gives every path the payload of the artifact that has it. |
| `ArchiveUpserts.UpsertKeepsIndexIff` | internal/project/pack.go:249-305 | Any indexable archive stays indexable after an accepted upsert exactly when the entry is shadowed by a later one that counts for its path, or the target has no white space at its ends and no artifact at another path has the same id or canonical path. |
| `ArchiveUpserts.TidyAdmitsIff` | internal/project/pack.go:249-305 | Where artifact entries stand under their canonical paths, that is: the target has no white space at its ends and no artifact at another path has the same id. |
| `ArchiveUpserts.UpsertChangesIndex` | internal/project/pack.go:249-305 | A shadowed upsert leaves the index as it is; any other that keeps the archive indexable changes it at the target only. |
| `ArchiveUpserts.UpsertsStayIndexableIff` | internal/project/pack.go:249-305 | Over every run of upserts, accepted or refused, on any indexable archive it can be indexed throughout exactly when each accepted artifact meets that condition at its moment. |
| `ArchiveUpserts.CreatedArchiveStaysIndexableIff` | internal/project/pack.go:249-305 | For every run on an archive that Create wrote under the default root the condition is only that the target has no white space at its ends and the id is free. |
| `ArchiveRoots.EscapingIdBreaksIndex` | internal/project/pack.go:263-266 | Counterexample: a new project under the default root accepts the id "../../ artifacts"; no id is in use and it no longer indexes. |
| `ArchiveRoots.SharedIdBreaksIndex` | internal/project/pack.go:249-305 | Counterexample: after a canvas and a query of one id were put in, a new project no longer indexes. |
| `ArchiveRoots.ManifestIsCandidateIff` | internal/project/report_binding.go:96-103 | The manifest of the project looks like an artifact exactly when the cleaned root is a proper prefix of its name. |
| `ArchiveRoots.NewProjectReindexesIff` | internal/project/report_binding.go:96-114 | A project without artifacts indexes again under a root exactly when the cleaned root is no proper prefix of manifest.json. |
| `ArchiveRoots.SomeRootsIndexManifest` | internal/project/report_binding.go:96-103 | Counterexamples: the roots "." and "m". |
| `ArchiveRoots.DotRootMixesPayloads` | internal/project/pack.go:91-114 | Counterexample: under the root "." two artifacts can be indexed and yet Create writes at the path of one the payload of the other. |
| `ArchiveRoots.SpacedRootLosesArtifact` | internal/project/pack.go:338-365 | Counterexample: under the root "./ x" an artifact can be written whose path has white space in front. |

## Left out

- SqlReader.PrintedGraphReadsBack: raw `Expression` and `Where` text, "*" columns and join kinds with white space around them are excluded; raw SQL has no grammar here, and for "*" the printer drops the source. `StatementReader.StatementReadsBack` adds structured predicates, `JoinAliases.PrintedGraphReadsBackIff` any right alias.
- CanvasSession.ShellFollowsStore: raw terminal input and running a canvas are not among the actions, and names are free of white space, because the shell does not follow other names.
- JoinSemantics.InnerOrderIsFree: RIGHT and FULL joins have a row semantics but no law about order, because their order matters.
- JoinSemantics.InnerChainMeaning: an ON clause refers to the alias of its own join; printed, it does so exactly for aliases without white space at their ends.
- Search.CosineInRange: over the reals; rounding may leave the interval by a unit in the last place.
- EventBusRuns.SubscriberGets: the moment of publication is the moment the read lock is taken; the fairness of the lock between readers and waiting writers is not modelled.
- VectorBuild.BuildFromSourceTexts: does not model 64-bit wrap-around, which only batch sizes near 2^63 could reach.
- EventBusCalls.EventBusObject.Publish: one call at a time; interleaving is the subject of `EventBusRuns`.
- DuckDB, migrations, SQL execution and query history: a database that cannot be seen; the canvas table is a list of rows with unique ids, and kind and source reference of a row are not modelled.
- JSON text, zip bytes, temporary files, HTTP calls and the FNV hash of the embedding: foreign formats, replaced by values.
- Wording of messages, projections for display, mapping of error texts to nodes, the last terminal result, the lines of the console and what the artifact writer writes: forwarding without canvas state.
- Manifest defaults, project names, listing artifacts by kind, vector-operation specs, `SearchByText`: short checks around what is modelled.
- Tool registry, authorizer, call lifecycle, reports, CSV and window code: they would add easy members only.
