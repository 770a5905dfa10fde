/** Exactly which query graphs are accepted, and what becomes of them, said by places in the graph. */
module GraphAcceptance {
  import opened Results
  import opened Text
  import opened QueryGraph

  /** The alias of the source: its own, or the name of its table. */
  function SourceName(g: Graph): string {
    if Trim(g.from.alias) == "" then g.from.table else Trim(g.from.alias)
  }

  predicate KnownKind(kind: string) {
    var t := Trim(kind);
    t == "" || t == "INNER JOIN" || t == "LEFT JOIN" || t == "RIGHT JOIN" || t == "FULL OUTER JOIN"
  }

  /** A join with a known kind, all its parts named. */
  predicate JoinComplete(j: Join) {
    && KnownKind(j.kind)
    && Trim(j.leftAlias) != "" && Trim(j.leftColumn) != ""
    && Trim(j.rightTable) != "" && Trim(j.rightAlias) != "" && Trim(j.rightColumn) != ""
  }

  /** The i-th join hangs a new alias on one that was there before. */
  predicate JoinFits(known: set<string>, joins: seq<Join>, i: nat)
    requires i < |joins|
  {
    && JoinComplete(joins[i])
    && (Trim(joins[i].leftAlias) in known || exists m :: 0 <= m < i && joins[m].rightAlias == Trim(joins[i].leftAlias))
    && joins[i].rightAlias !in known
    && (forall m :: 0 <= m < i ==> joins[m].rightAlias != joins[i].rightAlias)
  }

  predicate Visible(g: Graph, alias: string) {
    alias == SourceName(g) || exists i :: 0 <= i < |g.joins| && g.joins[i].rightAlias == alias
  }

  predicate FieldAccepted(g: Graph, expression: string, source: string, column: string) {
    Trim(expression) != "" || column == "*" || (column != "" && source != "" && Visible(g, source))
  }

  predicate ValuesFit(p: Predicate) {
    match p.operator
    case Other(_) => false
    case IsNull | NotNull => p.values == []
    case In => p.values != []
    case _ => |p.values| == 1
  }

  predicate PredicateAccepted(g: Graph, p: Predicate) {
    || Trim(p.expression) != "" || Trim(p.field.expression) != ""
    || (p.field.column != "" && p.field.source != "" && Visible(g, p.field.source) && ValuesFit(p))
  }

  predicate OrderAccepted(g: Graph, o: OrderBy) {
    if o.expression != "" then Trim(o.expression) != "" else FieldAccepted(g, "", o.source, o.column)
  }

  predicate Accepted(g: Graph) {
    && Trim(g.from.table) != ""
    && (forall i :: 0 <= i < |g.joins| ==> JoinFits({SourceName(g)}, g.joins, i))
    && (forall i :: 0 <= i < |g.predicates| ==> PredicateAccepted(g, g.predicates[i]))
    && (forall i :: 0 <= i < |g.fields| ==> FieldAccepted(g, g.fields[i].expression, g.fields[i].source, g.fields[i].column))
    && (forall i :: 0 <= i < |g.groupBy| ==> FieldAccepted(g, g.groupBy[i].expression, g.groupBy[i].source, g.groupBy[i].column))
    && (forall i :: 0 <= i < |g.orderBy| ==> OrderAccepted(g, g.orderBy[i]))
    && (Trim(g.condition) == "" || g.predicates == [])
  }

  /** A join as it is kept: a missing kind is INNER, the left alias is trimmed. */
  function KeptJoin(j: Join): Join {
    j.(kind := if Trim(j.kind) == "" then "INNER JOIN" else j.kind, leftAlias := Trim(j.leftAlias))
  }

  // ---------- Joins ----------

  lemma NormalizeJoinMeaning(j: Join)
    ensures NormalizeJoin(j).Ok? <==> JoinComplete(j)
    ensures NormalizeJoin(j).Ok? ==> NormalizeJoin(j).value == KeptJoin(j)
  {
    hide TrimLeft, TrimRight;
  }

  lemma FitsBehind(known: set<string>, joins: seq<Join>, i: nat)
    requires 0 < i < |joins|
    ensures JoinFits(known, joins, i) <==> JoinFits(known + {joins[0].rightAlias}, joins[1..], i - 1)
  {
    hide JoinComplete, Trim;
    var rest := joins[1..];
    assert rest[i - 1] == joins[i];
    assert forall m :: 0 <= m < i - 1 ==> rest[m] == joins[m + 1];
    if m :| 0 <= m < i && joins[m].rightAlias == Trim(joins[i].leftAlias) {
      assert m > 0 ==> rest[m - 1] == joins[m];
    }
    if m :| 0 <= m < i - 1 && rest[m].rightAlias == Trim(joins[i].leftAlias) {
      assert joins[m + 1].rightAlias == Trim(joins[i].leftAlias);
    }
    if forall m :: 0 <= m < i - 1 ==> rest[m].rightAlias != joins[i].rightAlias {
      forall m | 0 < m < i
        ensures joins[m].rightAlias != joins[i].rightAlias
      {
        assert rest[m - 1] == joins[m];
      }
    }
  }

  lemma AllFitBehind(known: set<string>, joins: seq<Join>)
    requires joins != []
    ensures (forall i :: 0 <= i < |joins| ==> JoinFits(known, joins, i)) <==>
              JoinFits(known, joins, 0) &&
              forall i :: 0 <= i < |joins[1..]| ==> JoinFits(known + {joins[0].rightAlias}, joins[1..], i)
  {
    hide JoinFits;
    forall i | 0 < i < |joins|
      ensures JoinFits(known, joins, i) <==> JoinFits(known + {joins[0].rightAlias}, joins[1..], i - 1)
    {
      FitsBehind(known, joins, i);
    }
    if forall i :: 0 <= i < |joins| ==> JoinFits(known, joins, i) {
      forall i | 0 <= i < |joins[1..]|
        ensures JoinFits(known + {joins[0].rightAlias}, joins[1..], i)
      {
        assert JoinFits(known, joins, i + 1);
      }
    }
    if JoinFits(known, joins, 0) && forall i :: 0 <= i < |joins[1..]| ==> JoinFits(known + {joins[0].rightAlias}, joins[1..], i) {
      forall i | 0 <= i < |joins|
        ensures JoinFits(known, joins, i)
      {
        assert i > 0 ==> JoinFits(known + {joins[0].rightAlias}, joins[1..], i - 1);
      }
    }
  }

  lemma FirstFits(known: set<string>, joins: seq<Join>)
    requires joins != []
    ensures JoinFits(known, joins, 0) <==> JoinFault(known, joins[0]).None?
  {
    hide JoinComplete, NormalizeJoin, Trim;
    NormalizeJoinMeaning(joins[0]);
  }

  lemma {:induction false} NormalizeJoinsMeaning(known: set<string>, joins: seq<Join>)
    ensures NormalizeJoins(known, joins).Ok? <==> forall i :: 0 <= i < |joins| ==> JoinFits(known, joins, i)
    ensures NormalizeJoins(known, joins).Ok? ==>
              |NormalizeJoins(known, joins).value| == |joins| &&
              forall i :: 0 <= i < |joins| ==> NormalizeJoins(known, joins).value[i] == KeptJoin(joins[i])
    decreases |joins|
  {
    hide JoinFits, JoinFault, NormalizeJoin, KeptJoin;
    if joins != [] {
      AllFitBehind(known, joins);
      FirstFits(known, joins);
      NormalizeJoinMeaning(joins[0]);
      NoFaultNormalizes(known, joins[0]);
      NormalizeJoinsMeaning(known + {joins[0].rightAlias}, joins[1..]);
      if NormalizeJoins(known, joins).Ok? {
        var rest := NormalizeJoins(known + {joins[0].rightAlias}, joins[1..]).value;
        assert NormalizeJoins(known, joins).value == [NormalizeJoin(joins[0]).value] + rest;
        forall i | 0 <= i < |joins|
          ensures ([NormalizeJoin(joins[0]).value] + rest)[i] == KeptJoin(joins[i])
        {
          assert i > 0 ==> rest[i - 1] == KeptJoin(joins[1..][i - 1]);
        }
      }
    }
  }

  // ---------- References ----------

  lemma VisibleIsDeclared(g: Graph, alias: string)
    ensures alias in Declared(g) <==> Visible(g, alias)
  {
    hide Trim;
  }

  lemma FieldFaultMeaning(g: Graph, f: FieldRef)
    ensures FieldFault(Declared(g), f).None? <==> FieldAccepted(g, f.expression, f.source, f.column)
  {
    hide Trim, Declared, Visible;
    VisibleIsDeclared(g, f.source);
  }

  lemma OrderFaultMeaning(g: Graph, o: OrderBy)
    ensures FieldFault(Declared(g), FieldOfOrder(o)).None? <==> OrderAccepted(g, o)
  {
    hide Trim, Declared, FieldFault;
    FieldFaultMeaning(g, FieldOfOrder(o));
    StarIsNotEmpty();
  }

  lemma StarIsNotEmpty()
    ensures Trim("") == "" && "*" != ""
  {
  }

  lemma PredicateFaultMeaning(g: Graph, p: Predicate)
    ensures PredicateFault(Declared(g), p).None? <==> PredicateAccepted(g, p)
  {
    hide Trim, Declared, Visible;
    VisibleIsDeclared(g, p.field.source);
  }

  lemma ReferencesMeaning(g: Graph)
    ensures FieldsFault(Declared(g), References(g)).None? <==>
              && (forall i :: 0 <= i < |g.fields| ==> FieldAccepted(g, g.fields[i].expression, g.fields[i].source, g.fields[i].column))
              && (forall i :: 0 <= i < |g.groupBy| ==> FieldAccepted(g, g.groupBy[i].expression, g.groupBy[i].source, g.groupBy[i].column))
              && (forall i :: 0 <= i < |g.orderBy| ==> OrderAccepted(g, g.orderBy[i]))
  {
    hide FieldFault, FieldAccepted, OrderAccepted, Declared, FieldsFault, FieldOfOrder;
    var fs, gs, os := g.fields, g.groupBy, FieldsOfOrders(g.orderBy);
    var refs := References(g);
    assert refs == fs + gs + os;
    forall i | 0 <= i < |fs|
      ensures refs[i] == fs[i] && (FieldFault(Declared(g), fs[i]).None? <==> FieldAccepted(g, fs[i].expression, fs[i].source, fs[i].column))
    {
      FieldFaultMeaning(g, fs[i]);
    }
    forall i | 0 <= i < |gs|
      ensures refs[|fs| + i] == gs[i] && (FieldFault(Declared(g), gs[i]).None? <==> FieldAccepted(g, gs[i].expression, gs[i].source, gs[i].column))
    {
      FieldFaultMeaning(g, gs[i]);
    }
    forall i | 0 <= i < |os|
      ensures refs[|fs| + |gs| + i] == os[i] && (FieldFault(Declared(g), os[i]).None? <==> OrderAccepted(g, g.orderBy[i]))
    {
      OrderFaultMeaning(g, g.orderBy[i]);
    }
    SplitReferences(Declared(g), refs, fs, gs, os);
  }

  lemma SplitReferences(declared: set<string>, refs: seq<FieldRef>, fs: seq<FieldRef>, gs: seq<FieldRef>, os: seq<FieldRef>)
    requires refs == fs + gs + os
    ensures FieldsFault(declared, refs).None? <==>
              && (forall i :: 0 <= i < |fs| ==> FieldFault(declared, fs[i]).None?)
              && (forall i :: 0 <= i < |gs| ==> FieldFault(declared, gs[i]).None?)
              && (forall i :: 0 <= i < |os| ==> FieldFault(declared, os[i]).None?)
  {
    hide FieldFault;
    if FieldsFault(declared, refs).None? {
      assert forall i :: 0 <= i < |fs| ==> refs[i] == fs[i];
      assert forall i :: 0 <= i < |gs| ==> refs[|fs| + i] == gs[i];
      assert forall i :: 0 <= i < |os| ==> refs[|fs| + |gs| + i] == os[i];
    }
  }

  // ---------- The whole graph ----------

  /**
    A graph is accepted exactly when its source has a table, each join is complete and
    hangs a new alias on an earlier one, every field, grouping, ordering and structured
    predicate refers to an alias of the graph, every structured predicate has a known
    operator with the values it needs, and there are not both raw conditions and
    predicates. It is kept as it is, but for the source alias, missing join kinds and the
    space around left aliases.
   */
  lemma NormalizeAcceptsIff(g: Graph)
    ensures Normalize(g).Ok? <==> Accepted(g)
    ensures Normalize(g).Ok? ==>
              var n := Normalize(g).value;
              && n == g.(from := QuerySource(g.from.table, SourceName(g)), joins := n.joins)
              && |n.joins| == |g.joins| && forall i :: 0 <= i < |g.joins| ==> n.joins[i] == KeptJoin(g.joins[i])
  {
    hide Trim, NormalizeJoins, JoinFits, PredicateFault, PredicateAccepted, FieldsFault, FieldAccepted, OrderAccepted, KeptJoin,
         Declared, References, PredicatesFault;
    assert SourceAlias(g) == SourceName(g);
    NormalizeJoinsMeaning({SourceName(g)}, g.joins);
    ReferencesMeaning(g);
    forall i | 0 <= i < |g.predicates|
      ensures PredicateFault(Declared(g), g.predicates[i]).None? <==> PredicateAccepted(g, g.predicates[i])
    {
      PredicateFaultMeaning(g, g.predicates[i]);
    }
  }
}
