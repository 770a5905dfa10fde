/**
  Which fields of a canvas survive the removal of duplicates, and what that means for
  nodes that are not joined: a field can hide behind another with the same key.
 */
module CanvasCoverage {
  import opened Results
  import opened Text
  import opened CanvasModel
  import opened CanvasNormalForm
  import opened CanvasBridge
  import opened CanvasCompile
  import QG = QueryGraph

  // ---------- Removing duplicates ----------

  predicate IsFirst(fields: seq<QG.FieldRef>, i: nat)
    requires i < |fields|
  {
    forall j :: 0 <= j < i ==> RefKey(fields[j]) != RefKey(fields[i])
  }

  /** Exactly the first reference of each key is kept. */
  lemma {:induction false} DedupeKeepsFirst(fields: seq<QG.FieldRef>, seen: set<string>, f: QG.FieldRef)
    ensures f in Dedupe(fields, seen) <==>
              RefKey(f) !in seen && exists i :: 0 <= i < |fields| && fields[i] == f && IsFirst(fields, i)
    decreases |fields|
  {
    hide RefKey;
    if fields != [] {
      var rest, key := fields[1..], RefKey(fields[0]);
      DedupeKeepsFirst(rest, seen, f);
      DedupeKeepsFirst(rest, seen + {key}, f);
      if f == fields[0] {
        assert IsFirst(fields, 0);
      }
      if i :| 0 <= i < |rest| && rest[i] == f && IsFirst(rest, i) && RefKey(f) != key {
        assert fields[i + 1] == f && IsFirst(fields, i + 1);
      }
      if i :| 0 <= i < |fields| && fields[i] == f && IsFirst(fields, i) && i > 0 {
        FirstInRest(fields, i);
      }
    }
  }

  lemma FirstInRest(fields: seq<QG.FieldRef>, i: nat)
    requires 0 < i < |fields| && IsFirst(fields, i)
    ensures fields[1..][i - 1] == fields[i] && IsFirst(fields[1..], i - 1) && RefKey(fields[i]) != RefKey(fields[0])
  {
    hide RefKey;
    assert forall j :: 0 <= j < i - 1 ==> fields[1..][j] == fields[j + 1];
  }

  lemma {:induction false} FirstOfKey(fields: seq<QG.FieldRef>, i: nat) returns (j: nat)
    requires i < |fields|
    ensures j <= i && RefKey(fields[j]) == RefKey(fields[i]) && IsFirst(fields, j)
    decreases i
  {
    hide RefKey;
    if IsFirst(fields, i) {
      j := i;
    } else {
      var k :| 0 <= k < i && RefKey(fields[k]) == RefKey(fields[i]);
      j := FirstOfKey(fields, k);
    }
  }

  /** No two different references have the same key. */
  predicate KeysDistinct(fields: seq<QG.FieldRef>) {
    forall f, g :: f in fields && g in fields && RefKey(f) == RefKey(g) ==> f == g
  }

  /** Removing duplicates loses no reference exactly when different references have different keys. */
  lemma DedupeKeepsAllIff(fields: seq<QG.FieldRef>)
    ensures (forall f :: f in fields ==> f in Dedupe(fields, {})) <==> KeysDistinct(fields)
  {
    hide RefKey, Dedupe;
    if forall f :: f in fields ==> f in Dedupe(fields, {}) {
      forall f, g | f in fields && g in fields && RefKey(f) == RefKey(g)
        ensures f == g
      {
        DedupeKeepsFirst(fields, {}, f);
        DedupeKeepsFirst(fields, {}, g);
      }
    }
    if KeysDistinct(fields) {
      forall f | f in fields
        ensures f in Dedupe(fields, {})
      {
        var i :| 0 <= i < |fields| && fields[i] == f;
        var j := FirstOfKey(fields, i);
        DedupeKeepsFirst(fields, {}, f);
      }
    }
  }

  // ---------- Names without separators ----------

  /** The canvas uses no "." in an alias and no "@" in a column, so no two references share a key. */
  predicate SeparatorFree(nodes: seq<CanvasNode>) {
    && (forall i :: 0 <= i < |nodes| ==> '.' !in nodes[i].alias)
    && (forall i, k :: 0 <= i < |nodes| && 0 <= k < |nodes[i].fields| ==> '@' !in nodes[i].fields[k].name)
  }

  lemma {:induction false} SplitIsUnique(a: string, b: string, a': string, b': string, c: char)
    requires a + [c] + b == a' + [c] + b'
    requires c !in a && c !in a'
    ensures a == a' && b == b'
  {
    var s := a + [c] + b;
    assert s[|a|] == c && s[|a'|] == c;
    assert forall i :: 0 <= i < |a| ==> s[i] == a[i] && a[i] in a;
    assert forall i :: 0 <= i < |a'| ==> s[i] == a'[i] && a'[i] in a';
    assert |a| == |a'|;
    assert a == s[..|a|] && b == s[|a| + 1..];
    assert a' == s[..|a'|] && b' == s[|a'| + 1..];
  }

  lemma KeysAreInjective(f: QG.FieldRef, g: QG.FieldRef)
    requires '.' !in f.source && '.' !in g.source && '@' !in f.column && '@' !in g.column
    requires RefKey(f) == RefKey(g) && f.expression == g.expression
    ensures f == g
  {
    var ft, gt := f.column + "@" + f.alias, g.column + "@" + g.alias;
    assert RefKey(f) == f.source + ['.'] + ft;
    assert RefKey(g) == g.source + ['.'] + gt;
    SplitIsUnique(f.source, ft, g.source, gt, '.');
    assert ft == f.column + ['@'] + f.alias && gt == g.column + ['@'] + g.alias;
    SplitIsUnique(f.column, f.alias, g.column, g.alias, '@');
  }

  lemma NodeFieldSeparatorFree(nodes: seq<CanvasNode>, i: nat, f: CanvasField)
    requires SeparatorFree(nodes) && i < |nodes| && f in NodeFields(nodes[i])
    ensures '@' !in f.name
  {
    SelectedFieldsAreFields(nodes[i].fields, nodes[i].selectedFields, f);
    assert f in nodes[i].fields;
  }

  lemma ContributedSeparatorFree(nodes: seq<CanvasNode>, f: QG.FieldRef)
    requires SeparatorFree(nodes) && Contributed(nodes, f)
    ensures '.' !in f.source && '@' !in f.column && f.expression == ""
  {
    hide NodeFields;
    var i, k :| 0 <= i < |nodes| && 0 <= k < |NodeFields(nodes[i])| &&
      f == QG.FieldRef("", NodeFields(nodes[i])[k].alias, nodes[i].alias, NodeFields(nodes[i])[k].name);
    NodeFieldSeparatorFree(nodes, i, NodeFields(nodes[i])[k]);
  }

  /** Names without separators give different references different keys. */
  lemma SeparatorFreeKeysDistinct(nodes: seq<CanvasNode>)
    requires SeparatorFree(nodes)
    ensures KeysDistinct(FieldsOfNodes(nodes))
  {
    hide RefKey, SeparatorFree, Contributed, FieldsOfNodes;
    var fields := FieldsOfNodes(nodes);
    forall f, g | f in fields && g in fields && RefKey(f) == RefKey(g)
      ensures f == g
    {
      FieldsOfNodesMembers(nodes, f);
      FieldsOfNodesMembers(nodes, g);
      ContributedSeparatorFree(nodes, f);
      ContributedSeparatorFree(nodes, g);
      KeysAreInjective(f, g);
    }
  }

  // ---------- Fields of nodes that are not joined ----------

  /** A named reference to a node that takes no part in the query. */
  predicate Stray(s: CanvasSpec, f: QG.FieldRef)
    requires s.nodes != []
  {
    f.column != "*" && forall i :: 0 <= i < |s.nodes| && s.nodes[i].alias == f.source ==> s.nodes[i].id !in Reached(s)
  }

  /** Every stray reference comes after one with the same key that is not stray. */
  predicate StraysHidden(s: CanvasSpec)
    requires s.nodes != []
  {
    var fields := FieldsOfNodes(s.nodes);
    forall i :: 0 <= i < |fields| && Stray(s, fields[i]) ==>
      exists j :: 0 <= j < i && RefKey(fields[j]) == RefKey(fields[i]) && !Stray(s, fields[j])
  }

  lemma FieldsReachedIffHidden(s: CanvasSpec)
    requires s.nodes != []
    ensures FieldsReached(s) <==> StraysHidden(s)
  {
    hide RefKey, FieldsOfNodes, Dedupe, Reached;
    var fields := FieldsOfNodes(s.nodes);
    assert FieldsReached(s) <==> forall f :: f in Dedupe(fields, {}) ==> !Stray(s, f) by {
      ReachedMeansNoStray(s);
    }
    hide FieldsReached, Stray;
    if FieldsReached(s) {
      forall i | 0 <= i < |fields| && Stray(s, fields[i])
        ensures exists j :: 0 <= j < i && RefKey(fields[j]) == RefKey(fields[i]) && !Stray(s, fields[j])
      {
        var j := FirstOfKey(fields, i);
        DedupeKeepsFirst(fields, {}, fields[j]);
      }
    }
    if StraysHidden(s) {
      forall f | f in Dedupe(fields, {})
        ensures !Stray(s, f)
      {
        DedupeKeepsFirst(fields, {}, f);
        var i :| 0 <= i < |fields| && fields[i] == f && IsFirst(fields, i);
      }
    }
  }

  lemma ReachedMeansNoStray(s: CanvasSpec)
    requires s.nodes != []
    ensures FieldsReached(s) <==> forall f :: f in Dedupe(FieldsOfNodes(s.nodes), {}) ==> !Stray(s, f)
  {
    hide RefKey, FieldsOfNodes, Dedupe, Reached;
    var fields := Dedupe(FieldsOfNodes(s.nodes), {});
    forall f
      ensures !Stray(s, f) <==>
                f.column == "*" || exists i :: 0 <= i < |s.nodes| && s.nodes[i].alias == f.source && s.nodes[i].id in Reached(s)
    {
    }
    hide Stray;
    if fields == [] {
      assert QueryFields(s.nodes) == [QG.FieldRef("", "", s.nodes[0].alias, "*")];
    }
  }

  predicate Contributes(n: CanvasNode) {
    exists k :: 0 <= k < |NodeFields(n)| && NodeFields(n)[k].name != "*"
  }

  /** Every node that contributes a named field takes part in the query. */
  predicate TreeCoversFields(s: CanvasSpec)
    requires s.nodes != []
  {
    forall i :: 0 <= i < |s.nodes| && Contributes(s.nodes[i]) ==> s.nodes[i].id in Reached(s)
  }

  /** The tree covers the fields exactly when no reference is stray. */
  lemma CoversIffNoStray(s: CanvasSpec)
    requires WellFormed(s)
    ensures TreeCoversFields(s) <==> forall f :: f in FieldsOfNodes(s.nodes) ==> !Stray(s, f)
  {
    hide NodeWF, EdgesWF, NodeFields, FieldsOfNodes, Reached, Lower, Trimmed;
    if TreeCoversFields(s) {
      forall f | f in FieldsOfNodes(s.nodes)
        ensures !Stray(s, f)
      {
        FieldsOfNodesMembers(s.nodes, f);
        var i, k :| 0 <= i < |s.nodes| && 0 <= k < |NodeFields(s.nodes[i])| &&
          f == QG.FieldRef("", NodeFields(s.nodes[i])[k].alias, s.nodes[i].alias, NodeFields(s.nodes[i])[k].name);
        if f.column != "*" {
          assert Contributes(s.nodes[i]);
        }
      }
    }
    if forall f :: f in FieldsOfNodes(s.nodes) ==> !Stray(s, f) {
      forall i | 0 <= i < |s.nodes| && Contributes(s.nodes[i])
        ensures s.nodes[i].id in Reached(s)
      {
        var k :| 0 <= k < |NodeFields(s.nodes[i])| && NodeFields(s.nodes[i])[k].name != "*";
        var f := QG.FieldRef("", NodeFields(s.nodes[i])[k].alias, s.nodes[i].alias, NodeFields(s.nodes[i])[k].name);
        assert Contributed(s.nodes, f);
        FieldsOfNodesMembers(s.nodes, f);
        var j :| 0 <= j < |s.nodes| && s.nodes[j].alias == f.source && s.nodes[j].id in Reached(s);
        SameAliasSameNode(s.nodes, i, j);
      }
    }
  }

  // ---------- When a canvas compiles ----------

  /**
    Any well-formed canvas compiles exactly when its edges grow a tree from the first node
    in list order and every stray reference is hidden by an earlier one with its key.
   */
  lemma CompilesIffStraysHidden(s: CanvasSpec, limit: int)
    requires WellFormed(s)
    ensures Compile(s, limit).Ok? <==> Attaches({s.nodes[0].id}, s.edges) && StraysHidden(s)
  {
    hide Compile, Attaches, FieldsReached, StraysHidden;
    CompilesIff(s, limit);
    FieldsReachedIffHidden(s);
  }

  /** It compiles although the tree does not cover the fields exactly when there is a stray reference and all are hidden. */
  lemma CompilesUncoveredIff(s: CanvasSpec, limit: int)
    requires WellFormed(s)
    ensures Compile(s, limit).Ok? && !TreeCoversFields(s) <==>
              && Attaches({s.nodes[0].id}, s.edges)
              && StraysHidden(s)
              && exists f :: f in FieldsOfNodes(s.nodes) && Stray(s, f)
  {
    hide Compile, Attaches, StraysHidden, TreeCoversFields, Stray, FieldsOfNodes;
    CompilesIffStraysHidden(s, limit);
    CoversIffNoStray(s);
  }

  /**
    Where different references have different keys, a well-formed canvas compiles exactly
    when its edges grow a tree from the first node in list order and every node that
    contributes a named field is in it.
   */
  lemma CompilesIffTreeCoversFields(s: CanvasSpec, limit: int)
    requires WellFormed(s) && KeysDistinct(FieldsOfNodes(s.nodes))
    ensures Compile(s, limit).Ok? <==> Attaches({s.nodes[0].id}, s.edges) && TreeCoversFields(s)
  {
    hide Compile, Attaches, TreeCoversFields, Stray, FieldsOfNodes, RefKey;
    CompilesIffStraysHidden(s, limit);
    CoversIffNoStray(s);
  }

  // ---------- A clash ----------

  // Two nodes whose only fields share the key "a.b.c@": the second is dropped as a duplicate.
  const CLASH_A := CanvasNode("1", "table", "t", "a.b", 0.0, 0.0, 80.0, 80.0, [CanvasField("c", "")], [])
  const CLASH_B := CanvasNode("2", "table", "u", "a", 0.0, 0.0, 80.0, 80.0, [CanvasField("b.c", "")], [])
  const CLASH := CanvasSpec("1", "", [CLASH_A, CLASH_B], [])

  lemma ClashWF()
    ensures WellFormed(CLASH)
  {
    assert NodeWF(CLASH_A) && NodeWF(CLASH_B);
    hide NodeWF;
    assert CLASH.nodes[0] == CLASH_A && CLASH.nodes[1] == CLASH_B;
    assert |Lower("a.b")| != |Lower("a")|;
    assert "1"[0] != "2"[0];
  }

  lemma ClashFields()
    ensures QueryFields(CLASH.nodes) == [QG.FieldRef("", "", "a.b", "c")]
  {
    var f, g := QG.FieldRef("", "", "a.b", "c"), QG.FieldRef("", "", "a", "b.c");
    assert RefKey(f) == "a.b.c@" && RefKey(g) == "a.b.c@";
    hide RefKey;
    assert CLASH.nodes[1..] == [CLASH_B];
    assert Refs("a.b", CLASH_A.fields) == [f] && Refs("a", CLASH_B.fields) == [g];
    assert FieldsOfNodes([CLASH_B]) == [g] + FieldsOfNodes([]);
    assert FieldsOfNodes(CLASH.nodes) == [f] + [g];
    assert ([f] + [g])[1..] == [g];
    var none: set<string> := {};
    assert none + {RefKey(f)} == {RefKey(f)};
    assert Dedupe([g], {RefKey(f)}) == [];
    assert Dedupe([f] + [g], none) == [f] + Dedupe([g], none + {RefKey(f)});
  }

  /** Counterexample: this canvas compiles although its second node contributes a named field and is not joined. */
  lemma ClashCompilesUncovered()
    ensures WellFormed(CLASH) && Compile(CLASH, 0).Ok?
    ensures Contributes(CLASH.nodes[1]) && CLASH.nodes[1].id !in Reached(CLASH)
  {
    hide WellFormed, Compile, QueryFields;
    ClashWF();
    ClashFields();
    CompilesIff(CLASH, 0);
    assert CLASH.nodes[0].alias == "a.b";
    assert CLASH.nodes[0].id in Reached(CLASH);
    assert NodeFields(CLASH.nodes[1])[0].name[0] != '*';
    assert "1"[0] != "2"[0];
    NoTargets();
  }
}
