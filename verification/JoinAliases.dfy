/**
  A right alias with white space at its ends is declared as it stands but trimmed in the
  ON clause, which then names another alias. Such a statement does not read back.
 */
module JoinAliases {
  import opened Results
  import opened Text
  import opened QueryGraph
  import opened Sql
  import opened SqlReader

  /** A join as NormalizeGraph leaves it, whatever its right alias. */
  predicate AnyAliasJoin(j: Join) {
    && (j.kind == JOIN_INNER || j.kind == JOIN_LEFT || j.kind == JOIN_RIGHT || j.kind == JOIN_FULL)
    && Trimmed(j.leftAlias) && j.leftAlias != ""
  }

  /** No raw SQL, no predicates and no "*"; the right aliases may be anything. */
  predicate PlainButAliases(g: Graph) {
    && Blank(g.condition) && g.predicates == []
    && (forall i :: 0 <= i < |g.joins| ==> PlainKind(g.joins[i]))
    && (forall i :: 0 <= i < |g.fields| ==> PlainField(g.fields[i]))
    && (forall i :: 0 <= i < |g.groupBy| ==> PlainField(g.groupBy[i]))
    && (forall i :: 0 <= i < |g.orderBy| ==> PlainOrder(g.orderBy[i]))
  }

  predicate AliasesTrimmed(joins: seq<Join>) {
    forall i :: 0 <= i < |joins| ==> Trimmed(joins[i].rightAlias)
  }

  // The ON clause names the trimmed alias, so the join does not read.
  lemma SpacedBodyFails(j: Join, fromAlias: string, rest: string)
    requires AnyAliasJoin(j) && !Trimmed(j.rightAlias) && NoQuoteAhead(rest)
    ensures ReadJoinBody(j.kind, Quote(j.rightTable) + (" " + (Quote(j.rightAlias) + (" ON " + (JoinOn(j, fromAlias) + rest))))) == None
  {
    hide Quote, ReadQuoted, Column, ReadColumn, Trim;
    var on := JoinOn(j, fromAlias) + rest;
    var right := Column(Trim(j.rightAlias), j.rightColumn) + rest;
    QuoteReads(j.rightTable, " " + (Quote(j.rightAlias) + (" ON " + on)));
    ExpectReads(" ", Quote(j.rightAlias) + (" ON " + on));
    assert (" ON " + on)[0] == ' ';
    QuoteReads(j.rightAlias, " ON " + on);
    ExpectReads(" ON ", on);
    assert on == Column(j.leftAlias, j.leftColumn) + (" = " + right);
    assert (" = " + right)[0] == ' ';
    ColumnReads(j.leftAlias, j.leftColumn, " = " + right);
    ExpectReads(" = ", right);
    ColumnReads(Trim(j.rightAlias), j.rightColumn, rest);
  }

  lemma {:induction false} SpacedJoinsFail(js: seq<Join>, fromAlias: string, rest: string)
    requires (forall i :: 0 <= i < |js| ==> AnyAliasJoin(js[i])) && NoQuoteAhead(rest)
    requires !AliasesTrimmed(js)
    ensures ReadJoins(RenderJoins(js, fromAlias) + rest) == None
    decreases |js|
  {
    hide Quote, JoinOn, ReadJoinBody, JoinAhead, Trim, Trimmed;
    var j := js[0];
    var more := RenderJoins(js[1..], fromAlias) + rest;
    var body := Quote(j.rightTable) + (" " + (Quote(j.rightAlias) + (" ON " + (JoinOn(j, fromAlias) + more))));
    assert RenderJoins(js, fromAlias) + rest == RenderJoin(j, fromAlias) + more;
    RenderJoinSplits(j, fromAlias, more);
    JoinAheadOf(j.kind, body);
    ExpectReads(" " + j.kind + " ", body);
    JoinsStartWithSpace(js[1..], fromAlias, rest);
    if Trimmed(j.rightAlias) {
      JoinBodyReads(j, fromAlias, more);
      SpacedJoinsFail(js[1..], fromAlias, rest);
    } else {
      SpacedBodyFails(j, fromAlias, more);
    }
  }

  lemma SpacedFromFails(n: Graph, rest: string)
    requires forall i :: 0 <= i < |n.joins| ==> AnyAliasJoin(n.joins[i])
    requires !AliasesTrimmed(n.joins) && NoQuoteAhead(rest)
    ensures ReadFrom(FromText(n) + rest) == None
  {
    hide Quote, ReadQuoted, RenderJoins, ReadJoins, AnyAliasJoin, AliasesTrimmed;
    var joins := RenderJoins(n.joins, n.from.alias) + rest;
    var alias := Quote(n.from.alias) + joins;
    var table := Quote(n.from.table) + (" " + alias);
    FromSplits(n, rest);
    ExpectReads(" FROM ", table);
    assert (" " + alias)[0] == ' ';
    QuoteReads(n.from.table, " " + alias);
    ExpectReads(" ", alias);
    JoinsStartWithSpace(n.joins, n.from.alias, rest);
    QuoteReads(n.from.alias, joins);
    SpacedJoinsFail(n.joins, n.from.alias, rest);
  }

  lemma AnyAliasNormalizes(j: Join)
    requires PlainKind(j) && NormalizeJoin(j).Ok?
    ensures AnyAliasJoin(NormalizeJoin(j).value)
  {
    hide TrimLeft, TrimRight;
  }

  lemma NormalizedAnyAlias(g: Graph)
    requires PlainButAliases(g) && Normalize(g).Ok?
    ensures var n := Normalize(g).value;
            && (forall i :: 0 <= i < |n.joins| ==> AnyAliasJoin(n.joins[i]))
            && (AliasesTrimmed(n.joins) <==> AliasesTrimmed(g.joins))
  {
    hide NormalizeJoins, NormalizeJoin, FieldsFault, PredicatesFault, Trim, PlainField, PlainOrder, Trimmed, AnyAliasJoin, PlainKind;
    NormalizeJoinsShape({SourceAlias(g)}, g.joins);
    var n := Normalize(g).value;
    forall i | 0 <= i < |n.joins|
      ensures AnyAliasJoin(n.joins[i]) && n.joins[i].rightAlias == g.joins[i].rightAlias
    {
      AnyAliasNormalizes(g.joins[i]);
    }
  }

  /** The SQL of a graph reads back as what was printed exactly when no right alias has white space at its ends. */
  lemma PrintedGraphReadsBackIff(g: Graph)
    requires PlainButAliases(g) && Generate(g).Ok?
    ensures ReadQuery(Generate(g).value.sql) == Some(SkeletonOf(Normalize(g).value)) <==> AliasesTrimmed(g.joins)
  {
    hide Generate, Normalize, SelectText, FromText, GroupText, OrderText, LimitText, ReadSelect, ReadFrom, ReadTail,
         PlainField, PlainOrder, AnyAliasJoin, JoinAhead, Blank, PlainKind, Trimmed;
    if AliasesTrimmed(g.joins) {
      PrintedGraphReadsBack(g);
    } else {
      PlainGenerates(g);
      NormalizedAnyAlias(g);
      var n := Normalize(g).value;
      var tail := GroupText(n.groupBy) + (OrderText(n.orderBy) + LimitText(n.limit));
      TailIsNoJoin(n.groupBy, n.orderBy, n.limit);
      SpacedFromFails(n, tail);
      FromStartsClause(n, tail);
      SelectReads(n, FromText(n) + tail);
    }
  }

  const SPACED := Graph(QuerySource("t", "t"), [Join(JOIN_INNER, "t", "c", "u", " u", "c")], [], "", [], [], [], 0)

  lemma OneJoinNormalizes(declared: set<string>, j: Join)
    requires JoinFault(declared, j).None?
    ensures NormalizeJoins(declared, [j]) == Ok([NormalizeJoin(j).value])
  {
    hide JoinFault, NormalizeJoin;
    NoFaultNormalizes(declared, j);
    var joins := [j];
    assert joins[1..] == [] && joins[0] == j;
    assert NormalizeJoins(declared + {j.rightAlias}, joins[1..]) == Ok([]);
    assert [NormalizeJoin(j).value] + [] == [NormalizeJoin(j).value];
  }

  lemma SpacedTrims()
    ensures Trim(" u") == "u" && Trim("t") == "t" && Trim("c") == "c" && Trim("u") == "u" && Trim(JOIN_INNER) == JOIN_INNER
    ensures Trim("") == ""
  {
    assert " u"[1..] == "u";
    assert Trimmed("t") && Trimmed("c") && Trimmed("u") && Trimmed(JOIN_INNER);
  }

  lemma SpacedNormalizes()
    ensures Normalize(SPACED).Ok? && Declared(SPACED) == {"t", " u"}
  {
    hide Trim;
    SpacedTrims();
    var j := SPACED.joins[0];
    assert NormalizeJoin(j) == Ok(j);
    assert " u"[0] != "t"[0];
    assert JoinFault({"t"}, j) == None;
    OneJoinNormalizes({"t"}, j);
    hide NormalizeJoins, JoinFault, NormalizeJoin;
    assert DeclaredBy([j]) == {" u"} by { DeclaredByCons([j]); NothingDeclared(); assert [j][1..] == []; }
    assert References(SPACED) == [];
  }

  /** Counterexample: the alias " u" is accepted and declared, but the ON clause names "u", which is not. */
  lemma SpacedAliasNamesNothing()
    ensures PlainButAliases(SPACED) && Generate(SPACED).Ok?
    ensures "u" !in Declared(SPACED)
    ensures JoinOn(SPACED.joins[0], "t") == Column("t", "c") + " = " + Column("u", "c")
    ensures ReadQuery(Generate(SPACED).value.sql) != Some(SkeletonOf(Normalize(SPACED).value))
  {
    hide ReadQuery, Generate, Normalize, Trim, Column;
    SpacedTrims();
    SpacedNormalizes();
    assert "u"[0] != "t"[0] && "u"[0] != " u"[0];
    PlainGenerates(SPACED);
    assert !Trimmed(SPACED.joins[0].rightAlias);
    PrintedGraphReadsBackIff(SPACED);
  }
}
