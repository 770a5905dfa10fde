/**
  One codec that meets the law asked of encodings: every text is spelled out character by
  character, lists are marked element by element, and the numbers are the four defaults.
 */
module PlainCodec {
  import opened Results
  import opened CanvasModel
  import opened CanvasCommands
  import opened CanvasText

  type Got<T> = Option<(T, string)>

  // ---------- Texts ----------

  function PutText(s: string, rest: string): (r: string)
    ensures |r| > |rest| && (rest != "" ==> r[|r| - 1] == rest[|rest| - 1])
    decreases |s|
  {
    if s == "" then ['.'] + rest else ['+', s[0]] + PutText(s[1..], rest)
  }

  function GetText(t: string): (r: Got<string>)
    ensures r.Some? ==> |r.value.1| < |t|
    decreases |t|
  {
    if t == "" then None
    else if t[0] == '.' then Some(("", t[1..]))
    else if |t| == 1 then None
    else match GetText(t[2..]) case None => None case Some((s, rest)) => Some(([t[1]] + s, rest))
  }

  lemma {:induction false} TextReads(s: string, rest: string)
    ensures GetText(PutText(s, rest)) == Some((s, rest))
    decreases |s|
  {
    var t := PutText(s, rest);
    if s == "" {
      assert t[1..] == rest;
    } else {
      TextReads(s[1..], rest);
      assert t[2..] == PutText(s[1..], rest);
      assert s == [s[0]] + s[1..];
    }
  }

  function PutTexts(list: seq<string>, rest: string): (r: string)
    ensures |r| > |rest| && (rest != "" ==> r[|r| - 1] == rest[|rest| - 1])
    decreases |list|
  {
    if list == [] then ['-'] + rest else ['*'] + PutText(list[0], PutTexts(list[1..], rest))
  }

  function GetTexts(t: string): (r: Got<seq<string>>)
    ensures r.Some? ==> |r.value.1| < |t|
    decreases |t|
  {
    if t == "" then None
    else if t[0] == '-' then Some(([], t[1..]))
    else
      match GetText(t[1..])
      case None => None
      case Some((s, more)) =>
        match GetTexts(more)
        case None => None
        case Some((list, rest)) => Some(([s] + list, rest))
  }

  lemma {:induction false} TextsRead(list: seq<string>, rest: string)
    ensures GetTexts(PutTexts(list, rest)) == Some((list, rest))
    decreases |list|
  {
    hide PutText, GetText;
    var t := PutTexts(list, rest);
    if list == [] {
      assert t[1..] == rest;
    } else {
      TextsRead(list[1..], rest);
      TextReads(list[0], PutTexts(list[1..], rest));
      assert t[1..] == PutText(list[0], PutTexts(list[1..], rest));
      assert list == [list[0]] + list[1..];
    }
  }

  // ---------- Numbers ----------

  predicate Default(x: real) {
    x == 0.0 || x == NODE_MIN_SIZE || x == NODE_DEFAULT_WIDTH || x == NODE_DEFAULT_HEIGHT
  }

  predicate DefaultNode(n: CanvasNode) {
    Default(n.x) && Default(n.y) && Default(n.width) && Default(n.height)
  }

  function PutReal(x: real): string {
    if x == 0.0 then "0" else if x == NODE_MIN_SIZE then "m" else if x == NODE_DEFAULT_WIDTH then "w" else "h"
  }

  function GetReal(s: string): (x: real)
    ensures Default(x)
  {
    if s == "0" then 0.0 else if s == "m" then NODE_MIN_SIZE else if s == "w" then NODE_DEFAULT_WIDTH else NODE_DEFAULT_HEIGHT
  }

  lemma RealReads(x: real)
    requires Default(x)
    ensures GetReal(PutReal(x)) == x
  {
  }

  // ---------- Records as lists of texts ----------

  function FieldTexts(fields: seq<CanvasField>): seq<string> {
    if fields == [] then [] else [fields[0].name, fields[0].alias] + FieldTexts(fields[1..])
  }

  function TextFields(list: seq<string>): seq<CanvasField>
    decreases |list|
  {
    if |list| < 2 then [] else [CanvasField(list[0], list[1])] + TextFields(list[2..])
  }

  lemma {:induction false} FieldsRead(fields: seq<CanvasField>)
    ensures TextFields(FieldTexts(fields)) == fields
  {
    if fields != [] {
      FieldsRead(fields[1..]);
      assert FieldTexts(fields)[2..] == FieldTexts(fields[1..]);
      assert fields == [fields[0]] + fields[1..];
    }
  }

  function PutNode(n: CanvasNode, rest: string): (r: string)
    ensures |r| > |rest| && (rest != "" ==> r[|r| - 1] == rest[|rest| - 1])
  {
    PutTexts([n.id, n.kind, n.table, n.alias, PutReal(n.x), PutReal(n.y), PutReal(n.width), PutReal(n.height)],
             PutTexts(FieldTexts(n.fields), PutTexts(n.selectedFields, rest)))
  }

  function GetNode(t: string): (r: Got<CanvasNode>)
    ensures r.Some? ==> |r.value.1| < |t| && DefaultNode(r.value.0)
  {
    match GetTexts(t)
    case None => None
    case Some((head, more)) =>
      match GetTexts(more)
      case None => None
      case Some((fields, more)) =>
        match GetTexts(more)
        case None => None
        case Some((selected, rest)) =>
          if |head| != 8 then None
          else Some((CanvasNode(head[0], head[1], head[2], head[3], GetReal(head[4]), GetReal(head[5]), GetReal(head[6]),
                                GetReal(head[7]), TextFields(fields), selected), rest))
  }

  lemma NodeReads(n: CanvasNode, rest: string)
    requires DefaultNode(n)
    ensures GetNode(PutNode(n, rest)) == Some((n, rest))
  {
    hide PutTexts, GetTexts, FieldTexts, TextFields, PutReal, GetReal;
    TextsRead(n.selectedFields, rest);
    TextsRead(FieldTexts(n.fields), PutTexts(n.selectedFields, rest));
    FieldsRead(n.fields);
    TextsRead([n.id, n.kind, n.table, n.alias, PutReal(n.x), PutReal(n.y), PutReal(n.width), PutReal(n.height)],
              PutTexts(FieldTexts(n.fields), PutTexts(n.selectedFields, rest)));
    RealReads(n.x);
    RealReads(n.y);
    RealReads(n.width);
    RealReads(n.height);
  }

  function PutNodes(nodes: seq<CanvasNode>, rest: string): (r: string)
    ensures |r| > |rest| && (rest != "" ==> r[|r| - 1] == rest[|rest| - 1])
    decreases |nodes|
  {
    if nodes == [] then ['-'] + rest else ['*'] + PutNode(nodes[0], PutNodes(nodes[1..], rest))
  }

  function GetNodes(t: string): (r: Got<seq<CanvasNode>>)
    ensures r.Some? ==> |r.value.1| < |t| && forall i :: 0 <= i < |r.value.0| ==> DefaultNode(r.value.0[i])
    decreases |t|
  {
    if t == "" then None
    else if t[0] == '-' then Some(([], t[1..]))
    else
      match GetNode(t[1..])
      case None => None
      case Some((n, more)) =>
        match GetNodes(more)
        case None => None
        case Some((list, rest)) => Some(([n] + list, rest))
  }

  lemma {:induction false} NodesRead(nodes: seq<CanvasNode>, rest: string)
    requires forall i :: 0 <= i < |nodes| ==> DefaultNode(nodes[i])
    ensures GetNodes(PutNodes(nodes, rest)) == Some((nodes, rest))
    decreases |nodes|
  {
    hide PutNode, GetNode, DefaultNode;
    var t := PutNodes(nodes, rest);
    if nodes == [] {
      assert t[1..] == rest;
    } else {
      NodesRead(nodes[1..], rest);
      NodeReads(nodes[0], PutNodes(nodes[1..], rest));
      assert t[1..] == PutNode(nodes[0], PutNodes(nodes[1..], rest));
      assert nodes == [nodes[0]] + nodes[1..];
    }
  }

  function EdgeTexts(e: CanvasEdge): seq<string> {
    [e.id, e.kind, e.fromNode, e.toNode, e.joinType, e.fromColumn, e.toColumn, e.description, e.labelText, e.cardinality,
     if e.directedHint then "t" else "f"]
  }

  function PutEdges(edges: seq<CanvasEdge>, rest: string): (r: string)
    ensures |r| > |rest| && (rest != "" ==> r[|r| - 1] == rest[|rest| - 1])
    decreases |edges|
  {
    if edges == [] then ['-'] + rest
    else ['*'] + PutTexts(EdgeTexts(edges[0]), PutTexts(edges[0].tags, PutEdges(edges[1..], rest)))
  }

  function GetEdge(t: string): (r: Got<CanvasEdge>)
    ensures r.Some? ==> |r.value.1| < |t|
  {
    match GetTexts(t)
    case None => None
    case Some((x, more)) =>
      match GetTexts(more)
      case None => None
      case Some((tags, rest)) =>
        if |x| != 11 then None
        else Some((CanvasEdge(x[0], x[1], x[2], x[3], x[4], x[5], x[6], x[7], x[8], tags, x[9], x[10] == "t"), rest))
  }

  function GetEdges(t: string): (r: Got<seq<CanvasEdge>>)
    ensures r.Some? ==> |r.value.1| < |t|
    decreases |t|
  {
    if t == "" then None
    else if t[0] == '-' then Some(([], t[1..]))
    else
      match GetEdge(t[1..])
      case None => None
      case Some((e, more)) =>
        match GetEdges(more)
        case None => None
        case Some((list, rest)) => Some(([e] + list, rest))
  }

  lemma EdgeReads(e: CanvasEdge, rest: string)
    ensures GetEdge(PutTexts(EdgeTexts(e), PutTexts(e.tags, rest))) == Some((e, rest))
  {
    hide PutTexts, GetTexts;
    TextsRead(e.tags, rest);
    TextsRead(EdgeTexts(e), PutTexts(e.tags, rest));
  }

  lemma {:induction false} EdgesRead(edges: seq<CanvasEdge>, rest: string)
    ensures GetEdges(PutEdges(edges, rest)) == Some((edges, rest))
    decreases |edges|
  {
    hide PutTexts, GetTexts, GetEdge, EdgeTexts;
    var t := PutEdges(edges, rest);
    if edges == [] {
      assert t[1..] == rest;
    } else {
      EdgesRead(edges[1..], rest);
      EdgeReads(edges[0], PutEdges(edges[1..], rest));
      assert t[1..] == PutTexts(EdgeTexts(edges[0]), PutTexts(edges[0].tags, PutEdges(edges[1..], rest)));
      assert edges == [edges[0]] + edges[1..];
    }
  }

  // ---------- Whole specs ----------

  function Encode(s: CanvasSpec): string {
    "{" + PutTexts([s.version, s.name], PutNodes(s.nodes, PutEdges(s.edges, "}")))
  }

  function Decode(t: string): (r: Option<CanvasSpec>)
    ensures r.Some? ==> forall i :: 0 <= i < |r.value.nodes| ==> DefaultNode(r.value.nodes[i])
  {
    if t == "" then None
    else
      match GetTexts(t[1..])
      case None => None
      case Some((head, more)) =>
        match GetNodes(more)
        case None => None
        case Some((nodes, more)) =>
          match GetEdges(more)
          case None => None
          case Some((edges, _)) => if |head| != 2 then None else Some(CanvasSpec(head[0], head[1], nodes, edges))
  }

  const PLAIN := Codec(Encode, Decode, Default)

  lemma SpecReads(s: CanvasSpec)
    requires forall i :: 0 <= i < |s.nodes| ==> DefaultNode(s.nodes[i])
    ensures Decode(Encode(s)) == Some(s) && Braced(Encode(s))
  {
    hide PutTexts, GetTexts, PutNodes, GetNodes, PutEdges, GetEdges, DefaultNode;
    EdgesRead(s.edges, "}");
    NodesRead(s.nodes, PutEdges(s.edges, "}"));
    TextsRead([s.version, s.name], PutNodes(s.nodes, PutEdges(s.edges, "}")));
    var body := PutTexts([s.version, s.name], PutNodes(s.nodes, PutEdges(s.edges, "}")));
    assert Encode(s)[1..] == body;
  }

  /** So the law can be met. */
  lemma PlainIsLawful()
    ensures Lawful(PLAIN)
  {
    hide Encode, Decode;
    forall s | Floats(PLAIN, s)
      ensures PLAIN.decode(PLAIN.encode(s)) == Some(s) && Braced(PLAIN.encode(s))
    {
      assert forall i :: 0 <= i < |s.nodes| ==> FloatNode(PLAIN, s.nodes[i]);
      SpecReads(s);
    }
    forall t | PLAIN.decode(t).Some?
      ensures Floats(PLAIN, PLAIN.decode(t).value)
    {
      DecodedFloats(t);
    }
  }

  lemma DecodedFloats(t: string)
    requires Decode(t).Some?
    ensures Floats(PLAIN, Decode(t).value)
  {
    hide Decode;
  }
}
