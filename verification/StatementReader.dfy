/** A whole statement read at once: what it selects, and what its WHERE clause says of a row. */
module StatementReader {
  import opened Results
  import opened Text
  import opened Values
  import opened QueryGraph
  import opened Sql
  import opened SqlReader
  import opened Predicates

  /** The WHERE clause at the front, if there is one; without one every row is kept. */
  function ReadWhere(s: string, args: seq<Value>, row: (string, string) -> Value): Outcome {
    if HasPrefix(s, " WHERE ") then EvalConjunction(s[7..], args, row) else Some((True, s, args))
  }

  /** A statement with its parameters, under a row: its skeleton and the truth of its WHERE clause. */
  function ReadStatement(q: QuerySQL, row: (string, string) -> Value): Option<(Skeleton, Tri)> {
    match ReadSelect(q.sql)
    case None => None
    case Some((fields, rest)) =>
      match ReadFrom(rest)
      case None => None
      case Some(((from, joins), rest)) =>
        match ReadWhere(rest, q.parameters, row)
        case None => None
        case Some((t, rest, args)) =>
          match ReadTail(rest)
          case None => None
          case Some((groupBy, orderBy, limit)) =>
            if args == [] then Some((Skeleton(from, joins, fields, groupBy, orderBy, limit), t)) else None
  }

  function Tail(n: Graph): string {
    GroupText(n.groupBy) + (OrderText(n.orderBy) + LimitText(n.limit))
  }

  lemma PartsGenerate(g: Graph)
    requires PlainParts(g) && Normalize(g).Ok?
    ensures var n := Normalize(g).value;
            && n == g.(from := n.from, joins := n.joins)
            && (Generate(g).Ok? <==> WhereText(g).Ok?)
            && (Generate(g).Ok? ==>
                  Generate(g).value == QuerySQL(
                    SelectText(n) + (FromText(n) + (WhereText(g).value.sql + Tail(n))), WhereText(g).value.parameters))
  {
    hide SelectText, FromText, FieldList, OrderList, Decimal, NormalizeJoins, FieldsFault, PredicatesFault, Trim, Conditions;
    var n := Normalize(g).value;
    if WhereText(g).Ok? {
      var a, b, w := SelectText(n), FromText(n), WhereText(g).value.sql;
      var c, d, e := GroupText(n.groupBy), OrderText(n.orderBy), LimitText(n.limit);
      assert TailText(n) == c + d + e;
      Assoc(c, d, e);
      Assoc(a + b, w, c + (d + e));
      Assoc(a, b, w + (c + (d + e)));
    }
  }

  // A WHERE clause is neither a join nor part of a list.
  lemma WhereIsNoJoin(rest: string)
    ensures JoinAhead(" WHERE " + rest).None? && NoQuoteAhead(" WHERE " + rest)
  {
    var s := " WHERE " + rest;
    assert s[1] == 'W';
    NotAhead(s, " " + JOIN_INNER + " ", 1);
    NotAhead(s, " " + JOIN_LEFT + " ", 1);
    NotAhead(s, " " + JOIN_RIGHT + " ", 1);
    NotAhead(s, " " + JOIN_FULL + " ", 1);
  }

  lemma TailIsNoCondition(fs: seq<FieldRef>, os: seq<OrderBy>, limit: int)
    ensures var rest := GroupText(fs) + (OrderText(os) + LimitText(limit));
            !HasPrefix(rest, " AND ") && !HasPrefix(rest, " WHERE ")
  {
    hide OrderText, LimitText, FieldList;
    SecondChar(os, limit);
    var rest := GroupText(fs) + (OrderText(os) + LimitText(limit));
    if fs == [] {
      assert rest == OrderText(os) + LimitText(limit);
    } else {
      assert rest[0] == ' ' && rest[1] == 'G';
    }
    NotAhead(rest, " AND ", 1);
    NotAhead(rest, " WHERE ", 1);
  }

  // The WHERE part reads as the conjunction of what is printed.
  lemma WhereReads(g: Graph, rest: string, row: (string, string) -> Value)
    requires Blank(g.condition)
    requires forall i :: 0 <= i < |g.predicates| ==> Complete(g.predicates[i])
    requires forall i :: 0 <= i < |g.predicates| ==> Printable(g.predicates[i])
    requires !HasPrefix(rest, " AND ") && !HasPrefix(rest, " WHERE ") && JoinAhead(rest).None? && NoQuoteAhead(rest)
    ensures WhereText(g).Ok?
    ensures ReadWhere(WhereText(g).value.sql + rest, WhereText(g).value.parameters, row)
              == Some((AllPrinted(g.predicates, row), rest, []))
    ensures JoinAhead(WhereText(g).value.sql + rest).None? && NoQuoteAhead(WhereText(g).value.sql + rest)
  {
    hide Complete, Printable, JoinAhead, EvalConjunction, RenderConditions, JoinStrings, Printed, Blank;
    if g.predicates == [] {
      assert WhereText(g).value.sql + rest == rest;
    } else {
      ConjunctionReads(g.predicates, rest, [], row);
      var (parts, args) := RenderConditions(g.predicates).value;
      var clause := JoinStrings(parts, " AND ");
      assert args + [] == args;
      Assoc(" WHERE ", clause, rest);
      ExpectReads(" WHERE ", clause + rest);
      WhereIsNoJoin(clause + rest);
    }
  }

  /**
    A graph that NormalizeGraph accepts, plain but for its structured predicates, is
    always printed, and its statement reads back as its skeleton together with, under any
    row, the conjunction of what is printed for its predicates.
   */
  lemma StatementReadsBack(g: Graph, row: (string, string) -> Value)
    requires PlainParts(g) && Normalize(g).Ok?
    requires forall i :: 0 <= i < |g.predicates| ==> Structured(g.predicates[i]) && g.predicates[i].field.column != "*"
    ensures forall i :: 0 <= i < |g.predicates| ==> Complete(g.predicates[i])
    ensures Generate(g).Ok?
    ensures ReadStatement(Generate(g).value, row) == Some((SkeletonOf(Normalize(g).value), AllPrinted(g.predicates, row)))
  {
    hide Generate, Normalize, SelectText, FromText, GroupText, OrderText, LimitText, ReadSelect, ReadFrom, ReadTail, ReadWhere,
         WhereText, PlainField, PlainOrder, PlainJoin, NormalJoin, JoinAhead, Blank, Structured, Complete, Printable, AllPrinted;
    AcceptedArePrintable(g);
    NormalizedJoinsAreNormal(g);
    PartsGenerate(g);
    var n := Normalize(g).value;
    TailReads(n.groupBy, n.orderBy, n.limit);
    TailIsNoJoin(n.groupBy, n.orderBy, n.limit);
    TailIsNoCondition(n.groupBy, n.orderBy, n.limit);
    WhereReads(g, Tail(n), row);
    FromReads(n, WhereText(g).value.sql + Tail(n));
    FromStartsClause(n, WhereText(g).value.sql + Tail(n));
    SelectReads(n, FromText(n) + (WhereText(g).value.sql + Tail(n)));
  }
}
