/**
  What holds of the shell after any run of dispatched actions, whatever the catalog and
  the terminal answer.
 */
module ShellRuns {
  import opened Results
  import opened Text
  import opened CanvasModel
  import opened CanvasEdits
  import opened CanvasCommands
  import opened CanvasText
  import opened ShellModel
  import CanvasBridge
  import CanvasCompile
  import QG = QueryGraph
  import Sql

  ghost predicate EmptyOrCanonical(c: Codec, text: string) {
    text == "" || IsCanonical(c, text)
  }

  /** The invariant of the draft/saved machine. */
  ghost predicate Consistent(c: Codec, sh: Shell) {
    && (sh.dirty <==> sh.draft != sh.saved)
    && (sh.active == "" ==> sh.draft == "" && sh.saved == "" && sh.validation == None)
    && EmptyOrCanonical(c, sh.draft)
    && EmptyOrCanonical(c, sh.saved)
    && (sh.active != "" ==> (sh.validation.None? <==> sh.draft != ""))
  }

  /** The numbers of a payload were read from JSON. */
  predicate ActionFloats(c: Codec, a: Action) {
    EditOf(a).Ok? ==> EditFloats(c, EditOf(a).value)
  }

  // ---------- One operation each ----------

  lemma CheckCanonical(c: Codec, text: string)
    requires Lawful(c) && EmptyOrCanonical(c, text)
    ensures Check(c, text).None? <==> text != ""
  {
    hide IsCanonical, Lawful;
    if text == "" {
      assert Trim("") == "";
    } else {
      CanonicalReads(c, text);
    }
  }

  lemma CanonicalIsConsistent(c: Codec, raw: string)
    requires Lawful(c) && CanonicalText(c, raw).Ok?
    ensures IsCanonical(c, CanonicalText(c, raw).value) && CanonicalText(c, raw).value != ""
  {
    hide IsCanonical, Lawful, CanonicalText;
    CanonicalTextIsCanonical(c, raw);
    CanonicalReads(c, CanonicalText(c, raw).value);
  }

  lemma WithDraftConsistent(c: Codec, sh: Shell, text: string)
    requires Lawful(c) && Consistent(c, sh) && sh.active != "" && IsCanonical(c, text) && text != ""
    ensures Consistent(c, WithDraft(c, sh, text))
  {
    hide IsCanonical, Lawful, Check;
    CheckCanonical(c, text);
  }

  lemma SetActiveConsistent(c: Codec, sh: Shell, name: string, loaded: Result<string, Fault>)
    requires Lawful(c)
    ensures Consistent(c, SetActive(c, sh, name, loaded).shell)
  {
    hide IsCanonical, Lawful, Check, CanonicalText, Trim;
    if Trim(name) != "" && loaded.Ok? && CanonicalText(c, loaded.value).Ok? {
      CanonicalIsConsistent(c, loaded.value);
      CheckCanonical(c, CanonicalText(c, loaded.value).value);
    }
  }

  lemma SetDraftConsistent(c: Codec, sh: Shell, spec: string)
    requires Lawful(c) && Consistent(c, sh)
    ensures Consistent(c, SetDraft(c, sh, spec).shell)
  {
    hide Consistent, IsCanonical, Lawful, CanonicalText, WithDraft;
    if sh.active != "" && CanonicalText(c, spec).Ok? {
      CanonicalIsConsistent(c, spec);
      WithDraftConsistent(c, sh, CanonicalText(c, spec).value);
    }
  }

  lemma EditDraftConsistent(c: Codec, sh: Shell, e: Edit)
    requires Lawful(c) && Consistent(c, sh) && EditFloats(c, e)
    ensures Consistent(c, EditDraft(c, sh, e).shell)
  {
    hide IsCanonical, Lawful, EditText, WithDraft, EditFloats, ParseText;
    if sh.active != "" && Trim(sh.draft) != "" && EditText(c, sh.draft, e).Ok? {
      assert sh.draft != "" by {
        assert Trim("") == "";
      }
      EditTextMeaning(c, sh.draft, e);
      var text := EditText(c, sh.draft, e).value;
      CanonicalReads(c, text);
      WithDraftConsistent(c, sh, text);
    }
  }

  lemma RevertConsistent(c: Codec, sh: Shell)
    requires Lawful(c) && Consistent(c, sh)
    ensures Consistent(c, Revert(c, sh).shell)
  {
    hide IsCanonical, Lawful, Check;
    CheckCanonical(c, sh.saved);
  }

  lemma CommitConsistent(c: Codec, sh: Shell)
    requires Consistent(c, sh)
    ensures Consistent(c, Commit(sh))
  {
    hide IsCanonical;
  }

  lemma AfterSaveConsistent(c: Codec, sh: Shell, name: string, spec: string)
    requires Lawful(c) && Consistent(c, sh) && name != ""
    ensures Consistent(c, AfterSave(c, sh, name, spec))
  {
    hide IsCanonical, Lawful, Check, CanonicalText;
    if CanonicalText(c, spec).Ok? {
      CanonicalIsConsistent(c, spec);
      CheckCanonical(c, CanonicalText(c, spec).value);
    }
  }

  lemma AfterCommandConsistent(c: Codec, sh: Shell, input: string)
    requires Lawful(c) && Consistent(c, sh)
    ensures Consistent(c, AfterCommand(c, sh, input))
  {
    hide IsCanonical, Lawful, ParseSaveCommand, ParseNewCommand, ParseRenameCommand, ParseDeleteCommand, Trim, Lower,
         HasPrefix, AfterSave;
    var trimmed := Trim(input);
    NamesAreNotEmpty(trimmed);
    if ParseSaveCommand(trimmed).Some? {
      var cmd := ParseSaveCommand(trimmed).value;
      AfterSaveConsistent(c, sh, cmd.name, cmd.spec);
    }
  }

  lemma NamesAreNotEmpty(input: string)
    ensures ParseSaveCommand(input).Some? ==> ParseSaveCommand(input).value.name != ""
    ensures ParseRenameCommand(input).Some? ==> ParseRenameCommand(input).value.0 != "" && ParseRenameCommand(input).value.1 != ""
  {
  }

  // ---------- Every action, every run ----------

  lemma DispatchConsistent(c: Codec, sh: Shell, a: Action, loaded: Result<string, Fault>, outcome: Outcome)
    requires Lawful(c) && Consistent(c, sh) && ActionFloats(c, a)
    ensures Consistent(c, Dispatch(c, sh, a, loaded, outcome).shell)
  {
    hide Consistent, Lawful, SetActive, SetDraft, EditDraft, Revert, CommandOf, AfterCommand, EditOf, EditFloats;
    ClearedConsistent(c);
    if a.SetCanvas? {
      SetActiveConsistent(c, sh, a.name, loaded);
    } else if a.SetCanvasDraft? {
      SetDraftConsistent(c, sh, a.spec);
    } else if a.RevertCanvas? {
      RevertConsistent(c, sh);
    } else if IsEdit(a) {
      if EditOf(a).Ok? {
        EditDraftConsistent(c, sh, EditOf(a).value);
      }
    } else if UsesTerminal(a) && outcome.Answered? && CommandOf(c, sh, a).Ok? {
      ConcludeConsistent(c, sh, a, CommandOf(c, sh, a).value, outcome.isError, outcome.message);
    }
  }

  lemma ClearedConsistent(c: Codec)
    ensures Consistent(c, Cleared())
  {
  }

  lemma ConcludeConsistent(c: Codec, sh: Shell, a: Action, command: string, isError: bool, message: string)
    requires Lawful(c) && Consistent(c, sh)
    ensures Consistent(c, Conclude(c, sh, a, command, isError, message))
  {
    hide AfterCommand, Lawful, IsCanonical;
    AfterCommandConsistent(c, sh, command);
    CommitConsistent(c, sh);
  }

  /** A dispatched action with what the catalog and the terminal answer to it. */
  datatype Event = Event(action: Action, loaded: Result<string, Fault>, outcome: Outcome)

  function Run(c: Codec, sh: Shell, events: seq<Event>): Shell
    decreases |events|
  {
    if events == [] then sh
    else Run(c, Dispatch(c, sh, events[0].action, events[0].loaded, events[0].outcome).shell, events[1..])
  }

  lemma {:induction false} RunConsistent(c: Codec, sh: Shell, events: seq<Event>)
    requires Lawful(c) && Consistent(c, sh)
    requires forall i :: 0 <= i < |events| ==> ActionFloats(c, events[i].action)
    ensures Consistent(c, Run(c, sh, events))
    decreases |events|
  {
    hide Lawful, Consistent, Dispatch, ActionFloats;
    if events != [] {
      var e := events[0];
      DispatchConsistent(c, sh, e.action, e.loaded, e.outcome);
      RunConsistent(c, Dispatch(c, sh, e.action, e.loaded, e.outcome).shell, events[1..]);
    }
  }

  /** After every run from the fresh shell: the flags and texts agree. */
  lemma EveryRunConsistent(c: Codec, events: seq<Event>)
    requires Lawful(c)
    requires forall i :: 0 <= i < |events| ==> ActionFloats(c, events[i].action)
    ensures var sh := Run(c, EMPTY, events);
            && (sh.dirty <==> sh.draft != sh.saved)
            && (sh.active == "" ==> sh.draft == "" && sh.saved == "" && !sh.dirty)
            && EmptyOrCanonical(c, sh.draft) && EmptyOrCanonical(c, sh.saved)
            && (sh.draft != "" ==> sh.validation == None)
  {
    hide Run, Lawful, IsCanonical;
    RunConsistent(c, EMPTY, events);
  }

  // ---------- Edits of the draft ----------

  /**
    An edit succeeds exactly when there is a draft and the canvas it holds admits the
    edit. Then the draft holds the edited canvas and only draft, flag, check and status
    change; otherwise nothing changes at all.
   */
  lemma EditDraftMeaning(c: Codec, sh: Shell, e: Edit)
    requires Lawful(c) && Consistent(c, sh) && EditFloats(c, e)
    ensures var r := EditDraft(c, sh, e);
            && (r.fault.None? <==>
                  sh.draft != "" && ParseText(c, sh.draft).Ok? && ApplyEdit(ParseText(c, sh.draft).value, e).Ok?)
            && (r.fault.Some? ==> r.shell == sh)
            && (r.fault.None? ==>
                  && ParseText(c, r.shell.draft) == Ok(ApplyEdit(ParseText(c, sh.draft).value, e).value)
                  && r.shell == Shell(sh.active, r.shell.draft, sh.saved, None, DraftUpdated, r.shell.draft != sh.saved))
  {
    hide IsCanonical, Lawful, EditText, EditFloats, ParseText, ApplyEdit, Check;
    assert Trim("") == "";
    if sh.draft != "" {
      CanonicalReads(c, sh.draft);
      EditTextMeaning(c, sh.draft, e);
      if EditText(c, sh.draft, e).Ok? {
        CanonicalReads(c, EditText(c, sh.draft, e).value);
        CheckCanonical(c, EditText(c, sh.draft, e).value);
      }
    }
  }

  /** Draft edits only. */
  predicate Drafting(a: Action) {
    IsEdit(a) || a.SetCanvasDraft?
  }

  lemma FailedDraftingChangesNothing(c: Codec, sh: Shell, a: Action, loaded: Result<string, Fault>, outcome: Outcome)
    requires Drafting(a)
    ensures var r := Dispatch(c, sh, a, loaded, outcome);
            && (r.fault.Some? ==> r.shell == sh)
            && r.shell.active == sh.active && r.shell.saved == sh.saved
  {
    hide CanonicalText, EditText, EditOf, Check;
  }

  lemma {:induction false} DraftingKeepsSaved(c: Codec, sh: Shell, events: seq<Event>)
    requires forall i :: 0 <= i < |events| ==> Drafting(events[i].action)
    ensures Run(c, sh, events).active == sh.active && Run(c, sh, events).saved == sh.saved
    decreases |events|
  {
    hide Dispatch, Drafting;
    if events != [] {
      var e := events[0];
      FailedDraftingChangesNothing(c, sh, e.action, e.loaded, e.outcome);
      DraftingKeepsSaved(c, Dispatch(c, sh, e.action, e.loaded, e.outcome).shell, events[1..]);
    }
  }

  /** Whatever was drafted since, reverting brings back the saved canvas, clean. */
  lemma RevertUndoesDrafting(c: Codec, sh: Shell, events: seq<Event>, loaded: Result<string, Fault>, outcome: Outcome)
    requires Lawful(c) && Consistent(c, sh) && sh.saved != ""
    requires forall i :: 0 <= i < |events| ==> Drafting(events[i].action)
    ensures var r := Dispatch(c, Run(c, sh, events), RevertCanvas, loaded, outcome);
            r.fault.None? && r.shell == Shell(sh.active, sh.saved, sh.saved, None, DraftReverted, false)
  {
    hide Lawful, IsCanonical, Check, Run, Drafting;
    DraftingKeepsSaved(c, sh, events);
    CheckCanonical(c, sh.saved);
  }

  // ---------- Payloads ----------

  lemma TrimmedNodeIsAbsorbed(n: CanvasNode)
    ensures NormalNewNode(TrimmedNode(n)) == NormalNewNode(n)
  {
    hide TrimLeft, TrimRight, Lower, NormalFields, SelectedOf, NormalSelected;
    TrimCommutesWithCase(n.kind);
    TrimCommutesWithCase(Trim(n.kind));
  }

  lemma TrimmedEdgeIsAbsorbed(e: CanvasEdge)
    ensures NormalNewEdge(TrimmedEdge(e)) == NormalNewEdge(e)
  {
    hide TrimLeft, TrimRight, Lower, Upper;
    TrimCommutesWithCase(e.joinType);
    TrimCommutesWithCase(Trim(e.joinType));
  }

  /** What a decoded payload asks for, on canvases. */
  function Asked(s: CanvasSpec, a: Action): Result<CanvasSpec, CanvasError>
    requires IsEdit(a)
  {
    match a
    case MoveCanvasNode(Some(p)) => MoveNode(s, p.nodeID, p.x, p.y)
    case SetNodeFields(Some(p)) => CanvasModel.SetNodeFields(s, p.nodeID, p.fields)
    case AddCanvasNode(Some(n)) => AddNode(s, n)
    case AddCanvasEdge(Some(e)) => AddEdge(s, e)
    case PatchCanvasEdge(Some(e)) => PatchEdge(s, e)
    case DeleteCanvasEdge(Some(p)) => DeleteEdge(s, if Trim(p.edgeID) != "" then p.edgeID else p.id)
    case _ => Err(NoNodes)
  }

  /**
    The payload parsers change no outcome: an accepted payload has exactly the effect it
    asks for, untrimmed, and a refused one would have failed on every canvas.
   */
  lemma PayloadsAreFaithful(s: CanvasSpec, a: Action)
    requires IsEdit(a)
    ensures EditOf(a).Ok? ==> ApplyEdit(s, EditOf(a).value) == Asked(s, a)
    ensures EditOf(a).Err? ==> Asked(s, a).Err?
  {
    hide MoveNode, CanvasModel.SetNodeFields, AddNode, AddEdge, PatchEdge, DeleteEdge, Trim, TrimmedNode, TrimmedEdge;
    match a
    case MoveCanvasNode(Some(p)) => TrimmedIDMoves(s, p.nodeID, p.x, p.y);
    case SetNodeFields(Some(p)) => TrimmedIDSelects(s, p.nodeID, p.fields);
    case AddCanvasNode(Some(n)) => TrimmedNodeAdds(s, n);
    case AddCanvasEdge(Some(e)) => TrimmedEdgeEdits(s, e);
    case PatchCanvasEdge(Some(e)) => TrimmedEdgeEdits(s, e);
    case DeleteCanvasEdge(Some(p)) =>
      TrimmedIDDeletes(s, p.edgeID);
      TrimmedIDDeletes(s, p.id);
    case _ =>
  }

  lemma TrimmedIDMoves(s: CanvasSpec, id: string, x: real, y: real)
    ensures MoveNode(s, Trim(id), x, y) == MoveNode(s, id, x, y)
    ensures Trim(id) == "" ==> MoveNode(s, id, x, y).Err?
  {
    hide NormalizeSpec, TrimLeft, TrimRight;
  }

  lemma TrimmedIDSelects(s: CanvasSpec, id: string, fields: seq<string>)
    ensures CanvasModel.SetNodeFields(s, Trim(id), fields) == CanvasModel.SetNodeFields(s, id, fields)
    ensures Trim(id) == "" ==> CanvasModel.SetNodeFields(s, id, fields).Err?
  {
    hide NormalizeSpec, TrimLeft, TrimRight, SelectedOf;
  }

  lemma TrimmedIDDeletes(s: CanvasSpec, id: string)
    ensures DeleteEdge(s, Trim(id)) == DeleteEdge(s, id)
    ensures Trim(id) == "" ==> DeleteEdge(s, id).Err?
  {
    hide NormalizeSpec, TrimLeft, TrimRight, WithoutEdge;
  }

  lemma TrimmedNodeAdds(s: CanvasSpec, n: CanvasNode)
    ensures AddNode(s, TrimmedNode(n)) == AddNode(s, n)
    ensures Trim(n.id) == "" ==> AddNode(s, n).Err?
  {
    hide NormalizeSpec, TrimLeft, TrimRight, TrimmedNode, NormalNewNode, EqualFold;
    TrimmedNodeIsAbsorbed(n);
    NewNodeId(n);
    NormalNodeId(n);
  }

  lemma NormalNodeId(n: CanvasNode)
    ensures NormalNode(n).id == Trim(n.id)
  {
  }

  lemma TrimmedEdgeEdits(s: CanvasSpec, e: CanvasEdge)
    ensures AddEdge(s, TrimmedEdge(e)) == AddEdge(s, e) && PatchEdge(s, TrimmedEdge(e)) == PatchEdge(s, e)
    ensures Trim(e.id) == "" ==> AddEdge(s, e).Err? && PatchEdge(s, e).Err?
  {
    hide NormalizeSpec, TrimLeft, TrimRight, TrimmedEdge, NormalNewEdge, EqualFold, StoredEdge;
    TrimmedEdgeIsAbsorbed(e);
    StoredEdgeShape(e);
  }

  // ---------- Running the canvas ----------

  lemma {:induction false} DecimalEndsInDigit(n: nat)
    ensures var d := Sql.Decimal(n);
            d != "" && !IsSpace(d[|d| - 1])
  {
    if n >= 10 {
      DecimalEndsInDigit(n / 10);
    }
  }

  lemma LimitedSqlIsTrimmed(g: QG.Graph)
    requires Sql.Generate(g).Ok? && g.limit > 0
    ensures Sql.Generate(g).value.sql != "" && Trim(Sql.Generate(g).value.sql) == Sql.Generate(g).value.sql
  {
    hide QG.NormalizeJoins, QG.FieldsFault, QG.PredicatesFault, Sql.FieldList, Sql.OrderList, Sql.FromText, Sql.Conditions,
         Sql.Decimal, Trim, QG.Blank;
    var n := QG.Normalize(g).value;
    var sql := Sql.Generate(g).value.sql;
    DecimalEndsInDigit(n.limit);
    var tail := Sql.TailText(n);
    var d := Sql.Decimal(n.limit);
    assert tail[|tail| - 1] == d[|d| - 1];
    assert sql[|sql| - 1] == tail[|tail| - 1];
    assert Sql.SelectText(n)[0] == 'S';
    assert sql[0] == 'S';
    TrimmedEnds(sql);
  }

  /**
    Running the active canvas sends the terminal exactly the SQL of the draft, limited to
    200 rows, and is refused exactly when there is no draft or it does not compile.
    Whatever comes back, only the status changes.
   */
  lemma RunSendsCompiledDraft(c: Codec, sh: Shell, loaded: Result<string, Fault>, outcome: Outcome)
    requires Lawful(c) && Consistent(c, sh) && Trim(sh.active) == sh.active
    ensures if sh.draft == "" then CommandOf(c, sh, RunCanvas).Err?
            else
              && ParseText(c, sh.draft).Ok?
              && var compiled := CanvasCompile.Compile(ParseText(c, sh.draft).value, 200);
                 CommandOf(c, sh, RunCanvas) == if compiled.Ok? then Ok(compiled.value.sql) else Err(NoCanvasSQL)
    ensures Dispatch(c, sh, RunCanvas, loaded, outcome).shell.(status := sh.status) == sh
  {
    hide IsCanonical, Lawful, ParseText, Check, CanvasBridge.CanvasGraph, Sql.Generate, Trim, Dispatch;
    RunChangesStatusOnly(c, sh, loaded, outcome);
    if sh.draft != "" {
      CanonicalReads(c, sh.draft);
      var s := ParseText(c, sh.draft).value;
      if CanvasCompile.Compile(s, RUN_LIMIT).Ok? {
        LimitedSqlIsTrimmed(CanvasBridge.CanvasGraph(s).value.(limit := RUN_LIMIT));
      }
    }
  }

  lemma RunChangesStatusOnly(c: Codec, sh: Shell, loaded: Result<string, Fault>, outcome: Outcome)
    ensures Dispatch(c, sh, RunCanvas, loaded, outcome).shell.(status := sh.status) == sh
  {
    hide CommandOf;
  }
}
