/** Two sessions that do not stay in step: a rename onto a used name, and a name with a space. */
module CanvasSamples {
  import opened Results
  import opened Text
  import opened CanvasModel
  import opened CanvasNormalForm
  import opened CanvasEdits
  import opened CanvasCommands
  import opened CanvasText
  import opened CanvasStore
  import opened ShellModel
  import opened ShellRuns
  import opened CanvasSession
  import opened PlainCodec

  const FIRST := CanvasSpec("1", "", [SAMPLE_A], [])
  const SECOND := CanvasSpec("1", "", [SAMPLE_B], [])

  lemma SamplesAreCanonical()
    ensures IsCanonical(PLAIN, Encode(FIRST)) && IsCanonical(PLAIN, Encode(SECOND)) && Encode(FIRST) != Encode(SECOND)
  {
    hide Encode, Decode, NodeWF;
    SampleNodesWF();
    assert SAMPLE_NODES[0] == SAMPLE_A && SAMPLE_NODES[1] == SAMPLE_B;
    assert NodeWF(SAMPLE_A) && NodeWF(SAMPLE_B);
    assert WellFormed(FIRST) && WellFormed(SECOND);
    SpecReads(FIRST);
    SpecReads(SECOND);
    assert FIRST.nodes[0].id[0] != SECOND.nodes[0].id[0];
    assert Floats(PLAIN, FIRST) && Floats(PLAIN, SECOND);
    assert PLAIN.encode(FIRST) == Encode(FIRST) && PLAIN.encode(SECOND) == Encode(SECOND);
  }

  lemma SampleTexts()
    ensures CanonicalText(PLAIN, Encode(FIRST)) == Ok(Encode(FIRST)) && CanonicalText(PLAIN, Encode(SECOND)) == Ok(Encode(SECOND))
    ensures Encode(FIRST) != ""
  {
    hide Encode, IsCanonical, CanonicalText, Lawful;
    PlainIsLawful();
    SamplesAreCanonical();
    CanonicalReads(PLAIN, Encode(FIRST));
    CanonicalReads(PLAIN, Encode(SECOND));
  }

  /** Two stored canvases, the first of them open. */
  function Opened(): Session {
    Session(Shell("one", Encode(FIRST), Encode(FIRST), None, Loaded, false),
            [Row("1", "one", Encode(FIRST), 1), Row("2", "two", Encode(SECOND), 1)], [])
  }

  lemma OpenedInStep()
    ensures InStep(PLAIN, Opened())
  {
    hide Encode, IsCanonical, CanonicalText, Revisions;
    SamplesAreCanonical();
    SampleTexts();
    NothingRevised();
    var s := Opened();
    assert "one"[0] != "two"[0] && "1"[0] != "2"[0];
    assert Word("one") && Word("two");
    assert Consistent(PLAIN, s.shell);
    assert s.rows[0].name == "one" && s.rows[1].name == "two";
    assert Tidy(s.rows);
    assert Mirrors(PLAIN, s.shell, s.rows);
    assert Versioned(s.rows, s.log);
  }

  /** Counterexample: from a session in step, renaming the open canvas onto the name of the other goes through and parts shell and store. */
  lemma RenameOntoUsedNameParts(raw: string)
    ensures var t := Step(PLAIN, Opened(), CanvasRename(raw, Some(RenamePayload("one", "two"))));
            && InStep(PLAIN, Opened())
            && Rename(Opened().rows, "one", "two") == Ok(t.rows)
            && !Mirrors(PLAIN, t.shell, t.rows)
  {
    hide Encode, InStep, Rename, Mirrors, CanonicalText, IsCanonical, Step;
    OpenedInStep();
    SampleTexts();
    SamplesAreCanonical();
    var renaming := Some(RenamePayload("one", "two"));
    assert RenameNames(raw, renaming) == Ok(("one", "two")) by {
      assert Trimmed("one") && Trimmed("two");
    }
    RenameKeepsMirrorIff(PLAIN, Opened(), 0, 1, raw, renaming);
  }

  const SPACED := "two words"

  /** Counterexample: deleting the open canvas "two words" removes its row, and the shell still shows it. */
  lemma SpacedNameStaysOpen(c: Codec, spec: string, raw: string, json: Option<string>)
    requires NamePayload(raw, json) == Ok(SPACED)
    ensures var s := Session(Shell(SPACED, spec, spec, None, Loaded, false), [Row("1", SPACED, spec, 1)], []);
            var t := Step(c, s, CanvasDelete(raw, json));
            t.rows == [] && t.shell == s.shell
  {
    hide Step, NamePayload;
    var s := Session(Shell(SPACED, spec, spec, None, Loaded, false), [Row("1", SPACED, spec, 1)], []);
    assert IsSpace(SPACED[3]);
    DeletingActiveClearsIff(c, s, 0, raw, json);
  }
}
