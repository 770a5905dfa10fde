/**
  A query as a graph: a source, a left-deep chain of joins, selected fields, predicates,
  grouping, ordering and a limit. NormalizeGraph checks that every alias is declared
  once and before it is used.
 */
module QueryGraph {
  import opened Results
  import opened Text
  import opened Values

  const JOIN_INNER := "INNER JOIN"
  const JOIN_LEFT := "LEFT JOIN"
  const JOIN_RIGHT := "RIGHT JOIN"
  const JOIN_FULL := "FULL OUTER JOIN"

  datatype QuerySource = QuerySource(table: string, alias: string)

  datatype Join = Join(
    kind: string, leftAlias: string, leftColumn: string, rightTable: string, rightAlias: string, rightColumn: string)

  datatype FieldRef = FieldRef(expression: string, alias: string, source: string, column: string)

  datatype OrderBy = OrderBy(expression: string, source: string, column: string, desc: bool)

  datatype Operator =
    | Eq | Neq | Gt | Gte | Lt | Lte | Like | In | Contains | IsNull | NotNull
    | Other(text: string)

  datatype Predicate = Predicate(
    expression: string, field: FieldRef, operator: Operator, values: seq<Value>, negated: bool)

  datatype Graph = Graph(
    from: QuerySource,
    joins: seq<Join>,
    fields: seq<FieldRef>,
    condition: string,
    predicates: seq<Predicate>,
    groupBy: seq<FieldRef>,
    orderBy: seq<OrderBy>,
    limit: int)

  datatype GraphError =
    | FromTableRequired
    | UnsupportedJoin(kind: string)
    | LeftAliasRequired
    | LeftColumnRequired
    | RightTableRequired
    | RightAliasRequired
    | RightColumnRequired
    | UnknownLeftAlias(alias: string)
    | AliasDeclaredTwice(alias: string)
    | PredicateColumnRequired
    | PredicateSourceRequired
    | UnknownSource(alias: string)
    | UnsupportedOperator(operator: Operator)
    | NoValuesAccepted
    | ValueRequired
    | OneValueRequired
    | FieldColumnRequired
    | FieldSourceRequired
    | ConditionAndPredicates

  predicate Blank(s: string) {
    Trim(s) == ""
  }

  function NormalizeJoin(j: Join): Result<Join, GraphError> {
    var kind := Trim(j.kind);
    if kind != "" && kind != JOIN_INNER && kind != JOIN_LEFT && kind != JOIN_RIGHT && kind != JOIN_FULL
    then Err(UnsupportedJoin(j.kind))
    else if Blank(j.leftAlias) then Err(LeftAliasRequired)
    else if Blank(j.leftColumn) then Err(LeftColumnRequired)
    else if Blank(j.rightTable) then Err(RightTableRequired)
    else if Blank(j.rightAlias) then Err(RightAliasRequired)
    else if Blank(j.rightColumn) then Err(RightColumnRequired)
    else Ok(j.(kind := if kind == "" then JOIN_INNER else j.kind, leftAlias := Trim(j.leftAlias)))
  }

  /** The first complaint about a join, given the aliases declared so far. */
  function JoinFault(declared: set<string>, j: Join): Option<GraphError> {
    match NormalizeJoin(j)
    case Err(e) => Some(e)
    case Ok(n) =>
      if n.leftAlias !in declared then Some(UnknownLeftAlias(n.leftAlias))
      else if n.rightAlias in declared then Some(AliasDeclaredTwice(n.rightAlias))
      else None
  }

  function NormalizeJoins(declared: set<string>, joins: seq<Join>): Result<seq<Join>, GraphError>
    decreases |joins|
  {
    if joins == [] then Ok([])
    else
      match JoinFault(declared, joins[0])
      case Some(e) => Err(e)
      case None =>
        match NormalizeJoins(declared + {joins[0].rightAlias}, joins[1..])
        case Err(e) => Err(e)
        case Ok(rest) => Ok([NormalizeJoin(joins[0]).value] + rest)
  }

  function ValuesFault(p: Predicate): Option<GraphError> {
    match p.operator
    case Other(_) => Some(UnsupportedOperator(p.operator))
    case IsNull | NotNull => if |p.values| > 0 then Some(NoValuesAccepted) else None
    case In => if |p.values| == 0 then Some(ValueRequired) else None
    case _ =>
      if |p.values| == 0 then Some(ValueRequired)
      else if |p.values| > 1 then Some(OneValueRequired)
      else None
  }

  /** Neither the predicate nor its field is raw SQL. */
  predicate Structured(p: Predicate) {
    Blank(p.expression) && Blank(p.field.expression)
  }

  function PredicateFault(declared: set<string>, p: Predicate): Option<GraphError> {
    if !Structured(p) then None
    else if p.field.column == "" then Some(PredicateColumnRequired)
    else if p.field.source == "" then Some(PredicateSourceRequired)
    else if p.field.source !in declared then Some(UnknownSource(p.field.source))
    else ValuesFault(p)
  }

  function PredicatesFault(declared: set<string>, ps: seq<Predicate>): (r: Option<GraphError>)
    ensures r.None? <==> forall i :: 0 <= i < |ps| ==> PredicateFault(declared, ps[i]).None?
  {
    if ps == [] then None
    else if PredicateFault(declared, ps[0]).Some? then PredicateFault(declared, ps[0])
    else PredicatesFault(declared, ps[1..])
  }

  function FieldFault(declared: set<string>, f: FieldRef): Option<GraphError> {
    if !Blank(f.expression) then None
    else if f.column == "*" then None
    else if f.column == "" then Some(FieldColumnRequired)
    else if f.source == "" then Some(FieldSourceRequired)
    else if f.source !in declared then Some(UnknownSource(f.source))
    else None
  }

  function FieldsFault(declared: set<string>, fs: seq<FieldRef>): (r: Option<GraphError>)
    ensures r.None? <==> forall i :: 0 <= i < |fs| ==> FieldFault(declared, fs[i]).None?
  {
    if fs == [] then None
    else if FieldFault(declared, fs[0]).Some? then FieldFault(declared, fs[0])
    else FieldsFault(declared, fs[1..])
  }

  function FieldOfOrder(o: OrderBy): FieldRef {
    if o.expression != "" then FieldRef(o.expression, "", "", "") else FieldRef("", "", o.source, o.column)
  }

  function FieldsOfOrders(os: seq<OrderBy>): (r: seq<FieldRef>)
    ensures |r| == |os|
    ensures forall i :: 0 <= i < |os| ==> r[i] == FieldOfOrder(os[i])
  {
    seq(|os|, i requires 0 <= i < |os| => FieldOfOrder(os[i]))
  }

  function SourceAlias(g: Graph): string {
    if Blank(g.from.alias) then g.from.table else Trim(g.from.alias)
  }

  function DeclaredBy(joins: seq<Join>): set<string> {
    set i | 0 <= i < |joins| :: joins[i].rightAlias
  }

  function Declared(g: Graph): set<string> {
    {SourceAlias(g)} + DeclaredBy(g.joins)
  }

  function References(g: Graph): seq<FieldRef> {
    g.fields + g.groupBy + FieldsOfOrders(g.orderBy)
  }

  /** NormalizeGraph: the same graph with its source alias filled in and its joins normalised. */
  function Normalize(g: Graph): Result<Graph, GraphError> {
    if Blank(g.from.table) then Err(FromTableRequired)
    else
      match NormalizeJoins({SourceAlias(g)}, g.joins)
      case Err(e) => Err(e)
      case Ok(joins) =>
        if PredicatesFault(Declared(g), g.predicates).Some? then Err(PredicatesFault(Declared(g), g.predicates).value)
        else if FieldsFault(Declared(g), References(g)).Some? then Err(FieldsFault(Declared(g), References(g)).value)
        else if !Blank(g.condition) && |g.predicates| > 0 then Err(ConditionAndPredicates)
        else Ok(g.(from := QuerySource(g.from.table, SourceAlias(g)), joins := joins))
  }

  // The joins accepted so far in front of the outcome of the others.
  function After(joins: seq<Join>, r: Result<seq<Join>, GraphError>): Result<seq<Join>, GraphError> {
    match r
    case Err(e) => Err(e)
    case Ok(rest) => Ok(joins + rest)
  }

  lemma AfterNothing(r: Result<seq<Join>, GraphError>)
    ensures After([], r) == r
  {
    if r.Ok? {
      assert [] + r.value == r.value;
    }
  }

  lemma AfterOne(joins: seq<Join>, j: Join, r: Result<seq<Join>, GraphError>)
    ensures After(joins + [j], r) == After(joins, After([j], r))
  {
    if r.Ok? {
      assert joins + [j] + r.value == joins + ([j] + r.value);
    }
  }

  method CheckPredicates(declared: set<string>, predicates: seq<Predicate>) returns (fault: Option<GraphError>)
    ensures fault == PredicatesFault(declared, predicates)
  {
    hide PredicateFault;
    var k := 0;
    while k < |predicates|
      invariant 0 <= k <= |predicates|
      invariant PredicatesFault(declared, predicates) == PredicatesFault(declared, predicates[k..])
    {
      assert predicates[k..][1..] == predicates[k + 1..];
      if PredicateFault(declared, predicates[k]).Some? {
        return PredicateFault(declared, predicates[k]);
      }
      k := k + 1;
    }
    return None;
  }

  method CheckReferences(declared: set<string>, refs: seq<FieldRef>) returns (fault: Option<GraphError>)
    ensures fault == FieldsFault(declared, refs)
  {
    hide FieldFault;
    var k := 0;
    while k < |refs|
      invariant 0 <= k <= |refs|
      invariant FieldsFault(declared, refs) == FieldsFault(declared, refs[k..])
    {
      assert refs[k..][1..] == refs[k + 1..];
      if FieldFault(declared, refs[k]).Some? {
        return FieldFault(declared, refs[k]);
      }
      k := k + 1;
    }
    return None;
  }

  method NormalizeGraph(g: Graph) returns (r: Result<Graph, GraphError>)
    ensures r == Normalize(g)
  {
    hide JoinFault, NormalizeJoin, Blank, Trim, PredicatesFault, FieldsFault;
    if Blank(g.from.table) {
      return Err(FromTableRequired);
    }
    var sourceAlias := SourceAlias(g);
    var declared := {sourceAlias};
    var joins: seq<Join> := [];
    var i := 0;
    assert g.joins[0..] == g.joins && DeclaredBy([]) == {};
    AfterNothing(NormalizeJoins(declared, g.joins));
    while i < |g.joins|
      invariant 0 <= i <= |g.joins|
      invariant declared == {sourceAlias} + DeclaredBy(g.joins[..i])
      invariant NormalizeJoins({sourceAlias}, g.joins) == After(joins, NormalizeJoins(declared, g.joins[i..]))
    {
      assert g.joins[i..][1..] == g.joins[i + 1..];
      MoreDeclared(g.joins, i);
      if JoinFault(declared, g.joins[i]).Some? {
        return Err(JoinFault(declared, g.joins[i]).value);
      }
      NoFaultNormalizes(declared, g.joins[i]);
      AfterOne(joins, NormalizeJoin(g.joins[i]).value, NormalizeJoins(declared + {g.joins[i].rightAlias}, g.joins[i + 1..]));
      joins := joins + [NormalizeJoin(g.joins[i]).value];
      declared := declared + {g.joins[i].rightAlias};
      i := i + 1;
    }
    assert g.joins[i..] == [] && g.joins[..i] == g.joins;
    assert declared == Declared(g);
    assert joins + [] == joins;
    var fault := CheckPredicates(declared, g.predicates);
    if fault.Some? {
      return Err(fault.value);
    }
    fault := CheckReferences(declared, References(g));
    if fault.Some? {
      return Err(fault.value);
    }
    if !Blank(g.condition) && |g.predicates| > 0 {
      return Err(ConditionAndPredicates);
    }
    return Ok(g.(from := QuerySource(g.from.table, sourceAlias), joins := joins));
  }

  lemma NoFaultNormalizes(declared: set<string>, j: Join)
    ensures JoinFault(declared, j).None? ==>
              && NormalizeJoin(j).Ok?
              && NormalizeJoin(j).value.leftAlias in declared
              && NormalizeJoin(j).value.rightAlias == j.rightAlias
              && j.rightAlias !in declared
  {
    hide Trim, Blank;
  }

  lemma MoreDeclared(joins: seq<Join>, i: nat)
    requires i < |joins|
    ensures DeclaredBy(joins[..i + 1]) == DeclaredBy(joins[..i]) + {joins[i].rightAlias}
  {
    assert forall j :: 0 <= j < i ==> joins[..i + 1][j] == joins[..i][j];
    assert joins[..i + 1][i] == joins[i];
    forall a | a in DeclaredBy(joins[..i])
      ensures a in DeclaredBy(joins[..i + 1])
    {
      var j :| 0 <= j < i && joins[..i][j].rightAlias == a;
      assert joins[..i + 1][j].rightAlias == a;
    }
  }

  // ---------- Scope ----------

  /** Each join hangs a new alias on one declared before it. */
  predicate JoinsScoped(declared: set<string>, joins: seq<Join>)
    decreases |joins|
  {
    joins != [] ==>
      && joins[0].leftAlias in declared
      && joins[0].rightAlias !in declared
      && JoinsScoped(declared + {joins[0].rightAlias}, joins[1..])
  }

  predicate InScope(declared: set<string>, f: FieldRef) {
    !Blank(f.expression) || f.column == "*" || (f.column != "" && f.source != "" && f.source in declared)
  }

  /** Every reference of the graph is to a declared alias, and every declaration is new. */
  predicate Scoped(g: Graph) {
    && JoinsScoped({g.from.alias}, g.joins)
    && (forall i :: 0 <= i < |References(g)| ==>
          InScope({g.from.alias} + DeclaredBy(g.joins), References(g)[i]))
    && (forall i :: 0 <= i < |g.predicates| && Structured(g.predicates[i]) ==>
          g.predicates[i].field.source in {g.from.alias} + DeclaredBy(g.joins))
  }

  lemma {:induction false} NormalizeJoinsShape(declared: set<string>, joins: seq<Join>)
    requires NormalizeJoins(declared, joins).Ok?
    ensures var out := NormalizeJoins(declared, joins).value;
            && |out| == |joins|
            && (forall i :: 0 <= i < |joins| ==>
                  NormalizeJoin(joins[i]) == Ok(out[i]) && out[i].rightAlias == joins[i].rightAlias)
            && JoinsScoped(declared, out)
    decreases |joins|
  {
    hide JoinFault, NormalizeJoin;
    if joins != [] {
      NoFaultNormalizes(declared, joins[0]);
      NormalizeJoinsShape(declared + {joins[0].rightAlias}, joins[1..]);
    }
  }

  lemma SameDeclared(a: seq<Join>, b: seq<Join>)
    requires |a| == |b| && forall i :: 0 <= i < |a| ==> a[i].rightAlias == b[i].rightAlias
    ensures DeclaredBy(a) == DeclaredBy(b)
  {
    forall x
      ensures x in DeclaredBy(a) <==> x in DeclaredBy(b)
    {
      if i :| 0 <= i < |a| && a[i].rightAlias == x {
        assert b[i].rightAlias == x;
      } else if i :| 0 <= i < |b| && b[i].rightAlias == x {
        assert a[i].rightAlias == x;
      }
    }
  }

  /** A normalised graph uses every alias after its one declaration. */
  lemma NormalizedIsScoped(g: Graph)
    requires Normalize(g).Ok?
    ensures Scoped(Normalize(g).value)
  {
    hide Trim, NormalizeJoin, NormalizeJoins, ValuesFault;
    var n := Normalize(g).value;
    NormalizeJoinsShape({SourceAlias(g)}, g.joins);
    SameDeclared(g.joins, n.joins);
    assert References(n) == References(g);
    forall i | 0 <= i < |References(g)|
      ensures InScope(Declared(g), References(g)[i])
    {
      assert FieldFault(Declared(g), References(g)[i]).None?;
    }
    forall i | 0 <= i < |g.predicates| && Structured(g.predicates[i])
      ensures g.predicates[i].field.source in Declared(g)
    {
      assert PredicateFault(Declared(g), g.predicates[i]).None?;
    }
  }

  lemma DeclaredByCons(joins: seq<Join>)
    requires joins != []
    ensures DeclaredBy(joins) == {joins[0].rightAlias} + DeclaredBy(joins[1..])
  {
    var rest := joins[1..];
    forall x | x in DeclaredBy(joins)
      ensures x == joins[0].rightAlias || x in DeclaredBy(rest)
    {
      var i :| 0 <= i < |joins| && joins[i].rightAlias == x;
      if i > 0 {
        assert rest[i - 1].rightAlias == x;
      }
    }
    forall x | x in DeclaredBy(rest)
      ensures x in DeclaredBy(joins)
    {
      var i :| 0 <= i < |rest| && rest[i].rightAlias == x;
      assert joins[i + 1].rightAlias == x;
    }
  }

  /** Scoped joins declare as many aliases as there are joins, besides those given. */
  lemma {:induction false} ScopedJoinsCount(declared: set<string>, joins: seq<Join>)
    requires JoinsScoped(declared, joins)
    ensures |declared + DeclaredBy(joins)| == |declared| + |joins|
    ensures declared !! DeclaredBy(joins)
    decreases |joins|
  {
    hide DeclaredBy;
    if joins == [] {
      NothingDeclared();
      assert declared + DeclaredBy(joins) == declared;
    } else {
      var more := declared + {joins[0].rightAlias};
      ScopedJoinsCount(more, joins[1..]);
      DeclaredByCons(joins);
      assert declared + DeclaredBy(joins) == more + DeclaredBy(joins[1..]);
    }
  }

  lemma NothingDeclared()
    ensures DeclaredBy([]) == {}
  {
  }

  /** No two scoped joins declare the same alias. */
  lemma {:induction false} ScopedJoinsDistinct(declared: set<string>, joins: seq<Join>, i: nat, j: nat)
    requires JoinsScoped(declared, joins) && i < j < |joins|
    ensures joins[i].rightAlias != joins[j].rightAlias
    decreases |joins|
  {
    if i > 0 {
      ScopedJoinsDistinct(declared + {joins[0].rightAlias}, joins[1..], i - 1, j - 1);
    } else {
      ScopedJoinsCount(declared + {joins[0].rightAlias}, joins[1..]);
      assert joins[1..][j - 1].rightAlias in DeclaredBy(joins[1..]);
    }
  }
}
