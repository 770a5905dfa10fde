/** Printing a query graph as SQL text with positional parameters. */
module Sql {
  import opened Results
  import opened Text
  import opened Values
  import opened QueryGraph

  datatype QuerySQL = QuerySQL(sql: string, parameters: seq<Value>)

  datatype SqlError =
    | InvalidGraph(error: GraphError)
    | PredicateFieldRequired
    | OperatorNotNegatable(operator: Operator)
    | InValueRequired
    | ValueCountMismatch
    | ExactlyOneValueRequired

  function JoinStrings(parts: seq<string>, sep: string): string {
    if parts == [] then ""
    else if |parts| == 1 then parts[0]
    else parts[0] + sep + JoinStrings(parts[1..], sep)
  }

  // ---------- Identifiers ----------

  /** Every double quote doubled: the body of a delimited identifier. */
  function Escape(s: string): string {
    if s == "" then "" else (if s[0] == '"' then "\"\"" else [s[0]]) + Escape(s[1..])
  }

  function Quote(s: string): string {
    ['"'] + Escape(s) + ['"']
  }

  function Column(source: string, column: string): string {
    Quote(source) + ['.'] + Quote(column)
  }

  // ---------- Numbers ----------

  function Digit(d: nat): char
    requires d < 10
  {
    (('0' as int) + d) as char
  }

  function Decimal(n: nat): string {
    if n < 10 then [Digit(n)] else Decimal(n / 10) + [Digit(n % 10)]
  }

  /** A value as the formatting verb %v prints it. */
  function Format(v: Value): string {
    match v
    case Null => "<nil>"
    case Int(n) => if n < 0 then "-" + Decimal(-n) else Decimal(n)
    case Str(s) => s
  }

  // ---------- Fields ----------

  function AliasSuffix(alias: string): string {
    if Trim(alias) == "" then "" else " AS " + Quote(Trim(alias))
  }

  function RenderField(f: FieldRef): string {
    if !Blank(f.expression) then
      "(" + f.expression + ")" + (if f.alias == "" then "" else " AS " + Quote(f.alias))
    else if f.column == "*" then
      "*" + (if f.alias == "" then "" else " AS " + Quote(f.alias))
    else Column(f.source, f.column) + AliasSuffix(f.alias)
  }

  function RenderFields(fs: seq<FieldRef>): (r: seq<string>)
    ensures |r| == |fs|
    ensures forall i :: 0 <= i < |fs| ==> r[i] == RenderField(fs[i])
  {
    seq(|fs|, i requires 0 <= i < |fs| => RenderField(fs[i]))
  }

  function FieldList(fs: seq<FieldRef>): string {
    JoinStrings(RenderFields(fs), ", ")
  }

  function RenderFieldNoAlias(f: FieldRef): string {
    if !Blank(f.expression) then "(" + f.expression + ")"
    else if f.column == "*" then "*"
    else Column(f.source, f.column)
  }

  function RenderOrder(o: OrderBy): string {
    RenderFieldNoAlias(FieldOfOrder(o)) + (if o.desc then " DESC" else " ASC")
  }

  function RenderOrders(os: seq<OrderBy>): (r: seq<string>)
    ensures |r| == |os|
    ensures forall i :: 0 <= i < |os| ==> r[i] == RenderOrder(os[i])
  {
    seq(|os|, i requires 0 <= i < |os| => RenderOrder(os[i]))
  }

  function OrderList(os: seq<OrderBy>): string {
    JoinStrings(RenderOrders(os), ", ")
  }

  // ---------- Joins ----------

  function JoinOn(j: Join, fromAlias: string): string {
    var left := if Blank(j.leftAlias) then fromAlias else Trim(j.leftAlias);
    Column(left, j.leftColumn) + " = " + Column(Trim(j.rightAlias), j.rightColumn)
  }

  function RenderJoin(j: Join, fromAlias: string): string {
    " " + j.kind + " " + Quote(j.rightTable) + " " + Quote(j.rightAlias) + " ON " + JoinOn(j, fromAlias)
  }

  function RenderJoins(js: seq<Join>, fromAlias: string): string {
    if js == [] then "" else RenderJoin(js[0], fromAlias) + RenderJoins(js[1..], fromAlias)
  }

  // ---------- Predicates ----------

  function OperatorText(op: Operator): string {
    match op
    case Eq => "="
    case Neq => "!="
    case Gt => ">"
    case Gte => ">="
    case Lt => "<"
    case Lte => "<="
    case Like => "LIKE"
    case In => "IN"
    case Contains => "CONTAINS"
    case IsNull => "IS NULL"
    case NotNull => "IS NOT NULL"
    case Other(t) => t
  }

  /** The operator and prefix that print the negation of an operator. */
  function ApplyNot(op: Operator, negate: bool): Result<(Operator, string), SqlError> {
    if !negate then Ok((op, ""))
    else
      match op
      case Eq => Ok((Neq, ""))
      case Neq => Ok((Eq, ""))
      case Gt => Ok((Lte, ""))
      case Gte => Ok((Lt, ""))
      case Lt => Ok((Gte, ""))
      case Lte => Ok((Gt, ""))
      case In => Ok((In, "NOT "))
      case Contains => Ok((Like, "NOT "))
      case Like => Ok((Like, "NOT "))
      case IsNull => Ok((NotNull, ""))
      case NotNull => Ok((IsNull, ""))
      case Other(_) => Err(OperatorNotNegatable(op))
  }

  function Wildcard(v: Value): Value {
    Str("%" + Format(v) + "%")
  }

  function PredicatedField(f: FieldRef): Result<string, SqlError> {
    if !Blank(f.expression) then Ok("(" + f.expression + ")")
    else if f.source == "" || f.column == "" then Err(PredicateFieldRequired)
    else if f.column == "*" then Ok(Quote(f.source))
    else Ok(Column(f.source, f.column))
  }

  function Placeholders(n: nat): (r: seq<string>)
    ensures |r| == n && forall i :: 0 <= i < n ==> r[i] == "?"
  {
    seq(n, _ => "?")
  }

  /** One condition of the WHERE clause, with the arguments of its placeholders. */
  function RenderPredicate(p: Predicate): Result<(string, seq<Value>), SqlError> {
    if !Blank(p.expression) then Ok((p.expression, []))
    else
      match PredicatedField(p.field)
      case Err(e) => Err(e)
      case Ok(field) =>
        match ApplyNot(p.operator, p.negated)
        case Err(e) => Err(e)
        case Ok((op, prefix)) =>
          match op
          case IsNull | NotNull => Ok((field + " " + OperatorText(op), []))
          case In =>
            if |p.values| == 0 then Err(InValueRequired)
            else Ok((field + " " + prefix + "IN (" + JoinStrings(Placeholders(|p.values|), ", ") + ")", p.values))
          case Contains | Like =>
            if |p.values| != 1 then Err(ValueCountMismatch)
            else Ok((field + " " + prefix + "LIKE ?", [Wildcard(p.values[0])]))
          case _ =>
            if |p.values| != 1 then Err(ExactlyOneValueRequired)
            else Ok((field + " " + OperatorText(op) + " ?", p.values))
  }

  /** The conditions and all their arguments, left to right. */
  function RenderConditions(ps: seq<Predicate>): Result<(seq<string>, seq<Value>), SqlError> {
    if ps == [] then Ok(([], []))
    else
      match RenderPredicate(ps[0])
      case Err(e) => Err(e)
      case Ok((part, args)) => AddFront(part, args, RenderConditions(ps[1..]))
  }

  function AddFront(part: string, args: seq<Value>, r: Result<(seq<string>, seq<Value>), SqlError>)
    : Result<(seq<string>, seq<Value>), SqlError>
  {
    match r
    case Err(e) => Err(e)
    case Ok((parts, more)) => Ok(([part] + parts, args + more))
  }

  /** renderPredicates */
  function Conditions(ps: seq<Predicate>): Result<QuerySQL, SqlError> {
    match RenderConditions(ps)
    case Err(e) => Err(e)
    case Ok((parts, args)) => Ok(QuerySQL(JoinStrings(parts, " AND "), args))
  }

  // ---------- The whole statement ----------

  function SelectText(n: Graph): string {
    "SELECT " + (if n.fields == [] then "*" else FieldList(n.fields))
  }

  function FromText(n: Graph): string {
    " FROM " + Quote(n.from.table) + " " + Quote(n.from.alias) + RenderJoins(n.joins, n.from.alias)
  }

  /** The WHERE clause with its arguments: raw text, or the predicates, or nothing. */
  function WhereText(n: Graph): Result<QuerySQL, SqlError> {
    if !Blank(n.condition) then Ok(QuerySQL(" WHERE " + Trim(n.condition), []))
    else if |n.predicates| > 0 then
      match Conditions(n.predicates)
      case Err(e) => Err(e)
      case Ok(c) => Ok(QuerySQL(" WHERE " + c.sql, c.parameters))
    else Ok(QuerySQL("", []))
  }

  function TailText(n: Graph): string {
    (if n.groupBy == [] then "" else " GROUP BY " + FieldList(n.groupBy)) +
    (if n.orderBy == [] then "" else " ORDER BY " + OrderList(n.orderBy)) +
    (if n.limit > 0 then " LIMIT " + Decimal(n.limit) else "")
  }

  function Generate(g: Graph): Result<QuerySQL, SqlError> {
    match Normalize(g)
    case Err(e) => Err(InvalidGraph(e))
    case Ok(n) =>
      match WhereText(n)
      case Err(e) => Err(e)
      case Ok(w) => Ok(QuerySQL(SelectText(n) + FromText(n) + w.sql + TailText(n), w.parameters))
  }

  // ---------- Printing lists and clauses step by step ----------

  lemma {:induction false} JoinStringsSnoc(parts: seq<string>, last: string, sep: string)
    requires parts != []
    ensures JoinStrings(parts + [last], sep) == JoinStrings(parts, sep) + sep + last
  {
    assert (parts + [last])[1..] == parts[1..] + [last];
    if |parts| > 1 {
      JoinStringsSnoc(parts[1..], last, sep);
    }
  }

  method RenderFieldList(fields: seq<FieldRef>) returns (text: string)
    ensures text == FieldList(fields)
  {
    hide RenderField;
    var parts: seq<string> := [];
    var i := 0;
    while i < |fields|
      invariant 0 <= i <= |fields| && |parts| == i
      invariant forall j :: 0 <= j < i ==> parts[j] == RenderField(fields[j])
    {
      parts := parts + [RenderField(fields[i])];
      i := i + 1;
    }
    assert parts == RenderFields(fields);
    return JoinStrings(parts, ", ");
  }

  method RenderOrderBy(orderBy: seq<OrderBy>) returns (text: string)
    ensures text == OrderList(orderBy)
  {
    hide RenderFieldNoAlias;
    var parts: seq<string> := [];
    var i := 0;
    while i < |orderBy|
      invariant 0 <= i <= |orderBy| && |parts| == i
      invariant forall j :: 0 <= j < i ==> parts[j] == RenderOrder(orderBy[j])
    {
      var expr := RenderFieldNoAlias(FieldOfOrder(orderBy[i]));
      if orderBy[i].desc {
        expr := expr + " DESC";
      } else {
        expr := expr + " ASC";
      }
      parts := parts + [expr];
      i := i + 1;
    }
    assert parts == RenderOrders(orderBy);
    return JoinStrings(parts, ", ");
  }

  method RenderPredicates(predicates: seq<Predicate>) returns (r: Result<QuerySQL, SqlError>)
    ensures r == Conditions(predicates)
  {
    hide RenderPredicate;
    var parts: seq<string> := [];
    var args: seq<Value> := [];
    var i := 0;
    assert predicates[0..] == predicates;
    AllBehindNothing(RenderConditions(predicates));
    while i < |predicates|
      invariant 0 <= i <= |predicates|
      invariant RenderConditions(predicates) == AllBehind(parts, args, RenderConditions(predicates[i..]))
    {
      assert predicates[i..][1..] == predicates[i + 1..];
      var c := RenderPredicate(predicates[i]);
      if c.Err? {
        return Err(c.error);
      }
      AllBehindOne(parts, args, c.value.0, c.value.1, RenderConditions(predicates[i + 1..]));
      parts := parts + [c.value.0];
      args := args + c.value.1;
      i := i + 1;
    }
    assert parts + [] == parts && args + [] == args;
    return Ok(QuerySQL(JoinStrings(parts, " AND "), args));
  }

  // The parts and arguments collected so far in front of the rest.
  function AllBehind(parts: seq<string>, args: seq<Value>, r: Result<(seq<string>, seq<Value>), SqlError>)
    : Result<(seq<string>, seq<Value>), SqlError>
  {
    match r
    case Err(e) => Err(e)
    case Ok((p, a)) => Ok((parts + p, args + a))
  }

  lemma AllBehindNothing(r: Result<(seq<string>, seq<Value>), SqlError>)
    ensures AllBehind([], [], r) == r
  {
    if r.Ok? {
      assert [] + r.value.0 == r.value.0 && [] + r.value.1 == r.value.1;
    }
  }

  lemma AllBehindOne(
    parts: seq<string>, args: seq<Value>, part: string, more: seq<Value>, r: Result<(seq<string>, seq<Value>), SqlError>)
    ensures AllBehind(parts + [part], args + more, r) == AllBehind(parts, args, AddFront(part, more, r))
  {
    if r.Ok? {
      assert parts + [part] + r.value.0 == parts + ([part] + r.value.0);
      assert args + more + r.value.1 == args + (more + r.value.1);
    }
  }

  method RenderJoinChain(joins: seq<Join>, fromAlias: string) returns (text: string)
    ensures text == RenderJoins(joins, fromAlias)
  {
    hide RenderJoin;
    text := "";
    var i := 0;
    while i < |joins|
      invariant 0 <= i <= |joins|
      invariant RenderJoins(joins, fromAlias) == text + RenderJoins(joins[i..], fromAlias)
    {
      assert joins[i..][1..] == joins[i + 1..];
      text := text + RenderJoin(joins[i], fromAlias);
      i := i + 1;
    }
  }

  method GenerateSQL(g: Graph) returns (r: Result<QuerySQL, SqlError>)
    ensures r == Generate(g)
  {
    hide Normalize, FieldList, OrderList, RenderJoins, Conditions, Decimal, Quote, Blank, Trim;
    var normalized := NormalizeGraph(g);
    if normalized.Err? {
      return Err(InvalidGraph(normalized.error));
    }
    var n := normalized.value;
    var builder := "SELECT ";
    if |n.fields| == 0 {
      builder := builder + "*";
    } else {
      var fields := RenderFieldList(n.fields);
      builder := builder + fields;
    }
    assert builder == SelectText(n);
    var joins := RenderJoinChain(n.joins, n.from.alias);
    builder := builder + (" FROM " + Quote(n.from.table) + " " + Quote(n.from.alias) + joins);
    assert builder == SelectText(n) + FromText(n);
    var parameters: seq<Value> := [];
    ghost var head := builder;
    if !Blank(n.condition) {
      builder := builder + (" WHERE " + Trim(n.condition));
    } else if |n.predicates| > 0 {
      var clause := RenderPredicates(n.predicates);
      if clause.Err? {
        return Err(clause.error);
      }
      builder := builder + (" WHERE " + clause.value.sql);
      parameters := clause.value.parameters;
    } else {
      assert head + "" == head;
    }
    assert WhereText(n).Ok? && builder == head + WhereText(n).value.sql && parameters == WhereText(n).value.parameters;
    var tail := "";
    if |n.groupBy| > 0 {
      var groupBy := RenderFieldList(n.groupBy);
      tail := tail + (" GROUP BY " + groupBy);
    }
    if |n.orderBy| > 0 {
      var orderBy := RenderOrderBy(n.orderBy);
      tail := tail + (" ORDER BY " + orderBy);
    }
    if n.limit > 0 {
      tail := tail + (" LIMIT " + Decimal(n.limit));
    }
    assert tail == TailText(n);
    return Ok(QuerySQL(builder + tail, parameters));
  }
}
