/**
  Canvas specs as text. JSON itself is outside the model: a Codec is any pair of an
  encoder and a decoder that undo each other on the numbers it can write.
 */
module CanvasText {
  import opened Results
  import opened Text
  import opened CanvasModel
  import opened CanvasNormalForm
  import opened CanvasEdits
  import opened CanvasCommands

  // float says which numbers the encoding can carry; decoding yields no others.
  datatype Codec = Codec(encode: CanvasSpec -> string, decode: string -> Option<CanvasSpec>, float: real -> bool)

  predicate FloatNode(c: Codec, n: CanvasNode) {
    c.float(n.x) && c.float(n.y) && c.float(n.width) && c.float(n.height)
  }

  predicate Floats(c: Codec, s: CanvasSpec) {
    forall i :: 0 <= i < |s.nodes| ==> FloatNode(c, s.nodes[i])
  }

  /** What encoding/json gives: decoding undoes encoding, an encoded spec is an object, and the defaults are numbers. */
  ghost predicate Lawful(c: Codec) {
    && (forall s :: Floats(c, s) ==> c.decode(c.encode(s)) == Some(s))
    && (forall s :: Floats(c, s) ==> Braced(c.encode(s)))
    && (forall t :: c.decode(t).Some? ==> Floats(c, c.decode(t).value))
    && c.float(0.0) && c.float(NODE_MIN_SIZE) && c.float(NODE_DEFAULT_WIDTH) && c.float(NODE_DEFAULT_HEIGHT)
  }

  datatype TextFault = SpecRequired | NotJson | BadCanvas(error: CanvasError)

  /** ParseCanvasSpec */
  function ParseText(c: Codec, raw: string): Result<CanvasSpec, TextFault> {
    if Trim(raw) == "" then Err(SpecRequired)
    else
      match c.decode(raw)
      case None => Err(NotJson)
      case Some(s) =>
        match NormalizeSpec(s)
        case Err(e) => Err(BadCanvas(e))
        case Ok(n) => Ok(n)
  }

  /** MarshalCanvasSpec */
  function Marshal(c: Codec, s: CanvasSpec): Result<string, TextFault> {
    match NormalizeSpec(s)
    case Err(e) => Err(BadCanvas(e))
    case Ok(n) => Ok(c.encode(n))
  }

  /** canonicalCanvasSpecText: read, normalise, print. */
  function CanonicalText(c: Codec, raw: string): Result<string, TextFault> {
    match ParseText(c, Trim(raw))
    case Err(e) => Err(e)
    case Ok(s) => Marshal(c, s)
  }

  /** validateCanvasSpec: what is wrong with a text, if anything. */
  function Validate(c: Codec, raw: string): Option<TextFault> {
    match ParseText(c, Trim(raw))
    case Err(e) => Some(e)
    case Ok(_) => None
  }

  /** The text of a well-formed canvas. */
  ghost predicate IsCanonical(c: Codec, text: string) {
    exists s :: WellFormed(s) && Floats(c, s) && text == c.encode(s)
  }

  // ---------- Numbers survive normalising and editing ----------

  lemma NormalNodeFloats(c: Codec, n: CanvasNode)
    requires Lawful(c) && FloatNode(c, n)
    ensures FloatNode(c, NormalNode(n))
  {
  }

  lemma NormalizeFloats(c: Codec, s: CanvasSpec)
    requires Lawful(c) && Floats(c, s) && NormalizeSpec(s).Ok?
    ensures Floats(c, NormalizeSpec(s).value)
  {
    hide NormalizeSpec, WellFormed, FloatNode, NormalNode, NormalEdge, Lawful;
    NormalizeSpecAccepts(s);
    forall i | 0 <= i < |s.nodes|
      ensures FloatNode(c, NormalNode(s.nodes[i]))
    {
      NormalNodeFloats(c, s.nodes[i]);
    }
  }

  predicate EditFloats(c: Codec, e: Edit) {
    match e
    case Move(_, x, y) => c.float(x) && c.float(y)
    case NewNode(n) => FloatNode(c, n)
    case _ => true
  }

  lemma ReplacedFloats(c: Codec, s: CanvasSpec, k: nat, n: CanvasNode)
    requires Floats(c, s) && k < |s.nodes| && FloatNode(c, n)
    ensures Floats(c, s.(nodes := s.nodes[k := n]))
  {
  }

  lemma EditKeepsFloats(c: Codec, s: CanvasSpec, e: Edit)
    requires Lawful(c) && WellFormed(s) && Floats(c, s) && EditFloats(c, e) && ApplyEdit(s, e).Ok?
    ensures Floats(c, ApplyEdit(s, e).value)
  {
    hide WellFormed, MoveNode, SetNodeFields, AddNode, AddEdge, PatchEdge, DeleteEdge, NormalNode, NodeWF, SelectedOf,
         EdgeWF, StoredEdge, Trim, EqualFold, SelectedWF;
    match e
    case Move(id, x, y) =>
      MoveNodeMeaning(s, id, x, y);
      var k :| 0 <= k < |s.nodes| && s.nodes[k].id == Trim(id);
      ReplacedFloats(c, s, k, s.nodes[k].(x := if x < 0.0 then 0.0 else x, y := if y < 0.0 then 0.0 else y));
    case SetFields(id, fields) =>
      SetNodeFieldsMeaning(s, id, fields);
      var k :| 0 <= k < |s.nodes| && s.nodes[k].id == Trim(id);
      ReplacedFloats(c, s, k, s.nodes[k].(selectedFields := SelectedOf(fields, s.nodes[k].fields)));
    case NewNode(node) =>
      AddNodeMeaning(s, node);
      NormalNodeFloats(c, node);
    case NewEdge(edge) => AddEdgeMeaning(s, edge);
    case Patch(edge) => PatchKeepsNodes(s, edge);
    case Delete(id) => DeleteEdgeMeaning(s, id);
  }

  lemma PatchKeepsNodes(s: CanvasSpec, edge: CanvasEdge)
    requires WellFormed(s) && PatchEdge(s, edge).Ok?
    ensures PatchEdge(s, edge).value.nodes == s.nodes
  {
    hide WellFormed, NormalizeSpec, NormalNewEdge, StoredEdge, EdgeIndex;
    WellFormedIsFixpoint(s);
    var k := EdgeIndex(s.edges, NormalNewEdge(edge).id).value;
    PatchAccepted(s, k, edge);
  }

  // ---------- Canonical texts ----------

  lemma CanonicalReads(c: Codec, text: string)
    requires Lawful(c) && IsCanonical(c, text)
    ensures Braced(text) && Trim(text) == text
    ensures ParseText(c, text).Ok? && WellFormed(ParseText(c, text).value) && Floats(c, ParseText(c, text).value)
    ensures c.encode(ParseText(c, text).value) == text
    ensures CanonicalText(c, text) == Ok(text)
    ensures Validate(c, text) == None
  {
    hide WellFormed, NormalizeSpec, Floats, Trim;
    var s :| WellFormed(s) && Floats(c, s) && text == c.encode(s);
    WellFormedIsFixpoint(s);
    TrimmedEnds(text);
  }

  /** Whatever is accepted becomes canonical, and a canonical text is its own canonical form. */
  lemma CanonicalTextIsCanonical(c: Codec, raw: string)
    requires Lawful(c) && CanonicalText(c, raw).Ok?
    ensures IsCanonical(c, CanonicalText(c, raw).value)
    ensures CanonicalText(c, CanonicalText(c, raw).value) == CanonicalText(c, raw)
  {
    hide WellFormed, NormalizeSpec, Floats, Trim;
    var s := c.decode(Trim(raw)).value;
    NormalizeFloats(c, s);
    WellFormedIsFixpoint(s);
    var n := NormalizeSpec(s).value;
    WellFormedIsFixpoint(n);
    assert WellFormed(n) && Floats(c, n) && CanonicalText(c, raw).value == c.encode(n);
    CanonicalReads(c, c.encode(n));
  }

  /** The draft edit as the shell makes it on text. */
  function EditText(c: Codec, draft: string, e: Edit): Result<string, TextFault> {
    match ParseText(c, draft)
    case Err(f) => Err(f)
    case Ok(s) =>
      match ApplyEdit(s, e)
      case Err(error) => Err(BadCanvas(error))
      case Ok(edited) => Marshal(c, edited)
  }

  /** Editing a canonical text is editing the canvas it stands for, and gives a canonical text. */
  lemma EditTextMeaning(c: Codec, draft: string, e: Edit)
    requires Lawful(c) && IsCanonical(c, draft) && EditFloats(c, e)
    ensures ParseText(c, draft).Ok?
    ensures EditText(c, draft, e).Ok? <==> ApplyEdit(ParseText(c, draft).value, e).Ok?
    ensures EditText(c, draft, e).Ok? ==>
              && IsCanonical(c, EditText(c, draft, e).value)
              && ParseText(c, EditText(c, draft, e).value) == Ok(ApplyEdit(ParseText(c, draft).value, e).value)
  {
    hide WellFormed, NormalizeSpec, Floats, ApplyEdit, EditFloats, Lawful, ParseText, Validate, CanonicalText;
    CanonicalReads(c, draft);
    var s := ParseText(c, draft).value;
    if ApplyEdit(s, e).Ok? {
      var edited := ApplyEdit(s, e).value;
      EditGivesWellFormed(s, e);
      EditKeepsFloats(c, s, e);
      WellFormedIsFixpoint(edited);
      CanonicalReads(c, c.encode(edited));
      EncodedReads(c, edited);
    }
  }

  lemma EncodedReads(c: Codec, s: CanvasSpec)
    requires Lawful(c) && WellFormed(s) && Floats(c, s)
    ensures ParseText(c, c.encode(s)) == Ok(s)
  {
    hide WellFormed, NormalizeSpec, Floats, Trim;
    WellFormedIsFixpoint(s);
    TrimmedEnds(c.encode(s));
  }
}
