/**
  Which rows survive a chain of outer joins: LEFT and FULL lose nothing of what is joined
  so far, RIGHT and FULL show every row of the joined table.
 */
module OuterJoins {
  import opened Text
  import opened Values
  import opened QueryGraph
  import opened Predicates
  import opened JoinSemantics

  predicate KeepsSoFar(j: Join) {
    Trim(j.kind) == "LEFT JOIN" || Trim(j.kind) == "FULL OUTER JOIN"
  }

  predicate KeepsJoined(j: Join) {
    Trim(j.kind) == "RIGHT JOIN" || Trim(j.kind) == "FULL OUTER JOIN"
  }

  /** Some binding gives the alias that row. */
  predicate Shows(acc: seq<Binding>, alias: string, table: string, row: nat) {
    exists i :: 0 <= i < |acc| && alias in acc[i] && acc[i][alias] == At(table, row)
  }

  // ---------- One step ----------

  lemma {:induction false} UnmatchedCovers(db: Database, acc: seq<Binding>, declared: set<string>, j: Join, k: nat)
    ensures Covers(Unmatched(db, acc, declared, j, k), declared + {j.rightAlias})
    decreases |RowsOf(db, j.rightTable)| - k
  {
    hide RowsOf, On;
    if k < |RowsOf(db, j.rightTable)| {
      UnmatchedCovers(db, acc, declared, j, k + 1);
    }
  }

  lemma CoversConcat(a: seq<Binding>, b: seq<Binding>, declared: set<string>)
    requires Covers(a, declared) && Covers(b, declared)
    ensures Covers(a + b, declared)
  {
  }

  lemma StepCovers(db: Database, acc: seq<Binding>, declared: set<string>, j: Join)
    requires Covers(acc, declared) && j.rightAlias !in declared
    ensures Covers(Step(db, acc, declared, j), declared + {j.rightAlias})
  {
    hide Trim, InnerStep, LeftStep, Unmatched, Covers;
    InnerStepCovers(db, acc, declared, j);
    LeftStepCovers(db, acc, declared, j);
    UnmatchedCovers(db, acc, declared, j, 0);
    CoversConcat(InnerStep(db, acc, j), Unmatched(db, acc, declared, j, 0), declared + {j.rightAlias});
    CoversConcat(LeftStep(db, acc, j), Unmatched(db, acc, declared, j, 0), declared + {j.rightAlias});
  }

  lemma StepKeeps(db: Database, acc: seq<Binding>, declared: set<string>, j: Join, i: nat) returns (k: nat)
    requires Covers(acc, declared) && j.rightAlias !in declared && KeepsSoFar(j) && i < |acc|
    ensures k < |Step(db, acc, declared, j)| && Extends(Step(db, acc, declared, j)[k], acc[i])
  {
    hide Trim, InnerStep, LeftStep, Unmatched, Extends;
    KindsDiffer();
    k := LeftStepKeeps(db, acc, j, i);
  }

  lemma KindsDiffer()
    ensures JOIN_LEFT == "LEFT JOIN" && JOIN_RIGHT == "RIGHT JOIN" && JOIN_FULL == "FULL OUTER JOIN" && JOIN_INNER == "INNER JOIN"
    ensures "LEFT JOIN" != "FULL OUTER JOIN" && "RIGHT JOIN" != "FULL OUTER JOIN" && "LEFT JOIN" != "RIGHT JOIN"
    ensures "INNER JOIN" != "LEFT JOIN" && "INNER JOIN" != "RIGHT JOIN" && "INNER JOIN" != "FULL OUTER JOIN"
  {
    assert "LEFT JOIN"[0] == 'L' && "RIGHT JOIN"[0] == 'R' && "FULL OUTER JOIN"[0] == 'F' && "INNER JOIN"[0] == 'I';
  }

  // A matching row is found by the inner and by the left step.
  lemma {:induction false} MatchIsFound(db: Database, acc: seq<Binding>, j: Join, i: nat, row: nat)
    requires i < |acc| && row < |RowsOf(db, j.rightTable)| && On(db, acc[i][j.rightAlias := At(j.rightTable, row)], j)
    ensures Shows(InnerStep(db, acc, j), j.rightAlias, j.rightTable, row)
    ensures Shows(LeftStep(db, acc, j), j.rightAlias, j.rightTable, row)
  {
    hide On, RowsOf, Partners;
    var found := Partners(db, acc[0], j, 0);
    if i == 0 {
      var c := acc[0][j.rightAlias := At(j.rightTable, row)];
      PartnersMember(db, acc[0], j, 0, c);
      var m :| 0 <= m < |found| && found[m] == c;
      assert InnerStep(db, acc, j)[m] == c;
      assert LeftStep(db, acc, j)[m] == c;
    } else {
      MatchIsFound(db, acc[1..], j, i - 1, row);
      var first := if found == [] then [acc[0][j.rightAlias := Nulls]] else found;
      ShowsBehind(found, InnerStep(db, acc[1..], j), j.rightAlias, j.rightTable, row);
      ShowsBehind(first, LeftStep(db, acc[1..], j), j.rightAlias, j.rightTable, row);
    }
  }

  lemma ShowsBehind(a: seq<Binding>, b: seq<Binding>, alias: string, table: string, row: nat)
    ensures Shows(b, alias, table, row) || Shows(a, alias, table, row) ==> Shows(a + b, alias, table, row)
  {
    if i :| 0 <= i < |b| && alias in b[i] && b[i][alias] == At(table, row) {
      assert (a + b)[|a| + i] == b[i];
    }
    if i :| 0 <= i < |a| && alias in a[i] && a[i][alias] == At(table, row) {
      assert (a + b)[i] == a[i];
    }
  }

  predicate Matched(db: Database, acc: seq<Binding>, j: Join, row: nat) {
    exists b :: b in acc && On(db, b[j.rightAlias := At(j.rightTable, row)], j)
  }

  lemma {:induction false} UnmatchedShows(db: Database, acc: seq<Binding>, declared: set<string>, j: Join, k: nat, row: nat)
    requires k <= row < |RowsOf(db, j.rightTable)| && !Matched(db, acc, j, row)
    ensures Shows(Unmatched(db, acc, declared, j, k), j.rightAlias, j.rightTable, row)
    decreases row - k
  {
    hide On, RowsOf;
    var alone := (map a | a in declared :: Nulls)[j.rightAlias := At(j.rightTable, k)];
    var first := if exists b :: b in acc && On(db, b[j.rightAlias := At(j.rightTable, k)], j) then [] else [alone];
    if k == row {
      assert first == [alone];
      assert j.rightAlias in first[0] && first[0][j.rightAlias] == At(j.rightTable, row);
      assert Shows(first, j.rightAlias, j.rightTable, row);
    } else {
      UnmatchedShows(db, acc, declared, j, k + 1, row);
    }
    ShowsBehind(first, Unmatched(db, acc, declared, j, k + 1), j.rightAlias, j.rightTable, row);
  }

  /** A RIGHT or FULL step shows every row of the table it joins. */
  lemma StepShowsJoined(db: Database, acc: seq<Binding>, declared: set<string>, j: Join, row: nat)
    requires KeepsJoined(j) && row < |RowsOf(db, j.rightTable)|
    ensures Shows(Step(db, acc, declared, j), j.rightAlias, j.rightTable, row)
  {
    hide Trim, InnerStep, LeftStep, Unmatched, On, RowsOf, Shows;
    KindsDiffer();
    if Matched(db, acc, j, row) {
      var b :| b in acc && On(db, b[j.rightAlias := At(j.rightTable, row)], j);
      var i :| 0 <= i < |acc| && acc[i] == b;
      MatchIsFound(db, acc, j, i, row);
    } else {
      UnmatchedShows(db, acc, declared, j, 0, row);
    }
    ShowsBehind(InnerStep(db, acc, j), Unmatched(db, acc, declared, j, 0), j.rightAlias, j.rightTable, row);
    ShowsBehind(LeftStep(db, acc, j), Unmatched(db, acc, declared, j, 0), j.rightAlias, j.rightTable, row);
  }

  // ---------- Chains ----------

  /** What is shown before joins that all keep it is shown behind them. */
  lemma {:induction false} ChainKeepsShown(
    db: Database, acc: seq<Binding>, declared: set<string>, joins: seq<Join>, alias: string, table: string, row: nat)
    requires Covers(acc, declared) && JoinsScoped(declared, joins) && Shows(acc, alias, table, row)
    requires forall n :: 0 <= n < |joins| ==> KeepsSoFar(joins[n])
    ensures Shows(Chain(db, acc, declared, joins), alias, table, row)
    decreases |joins|
  {
    hide Step, Covers, KeepsSoFar;
    if joins != [] {
      var i :| 0 <= i < |acc| && alias in acc[i] && acc[i][alias] == At(table, row);
      var k := StepKeeps(db, acc, declared, joins[0], i);
      StepCovers(db, acc, declared, joins[0]);
      ChainKeepsShown(db, Step(db, acc, declared, joins[0]), declared + {joins[0].rightAlias}, joins[1..], alias, table, row);
    }
  }

  /** A join that shows every row of its table, in a chain whose later joins all keep what they are given. */
  lemma {:induction false} ChainShowsJoined(
    db: Database, acc: seq<Binding>, declared: set<string>, joins: seq<Join>, k: nat, row: nat)
    requires Covers(acc, declared) && JoinsScoped(declared, joins) && k < |joins| && KeepsJoined(joins[k])
    requires forall n :: k < n < |joins| ==> KeepsSoFar(joins[n])
    requires row < |RowsOf(db, joins[k].rightTable)|
    ensures Shows(Chain(db, acc, declared, joins), joins[k].rightAlias, joins[k].rightTable, row)
    decreases |joins|
  {
    hide Step, Covers, KeepsSoFar, KeepsJoined, RowsOf;
    var next, more := Step(db, acc, declared, joins[0]), declared + {joins[0].rightAlias};
    StepCovers(db, acc, declared, joins[0]);
    if k == 0 {
      StepShowsJoined(db, acc, declared, joins[0], row);
      ChainKeepsShown(db, next, more, joins[1..], joins[0].rightAlias, joins[0].rightTable, row);
    } else {
      ChainShowsJoined(db, next, more, joins[1..], k - 1, row);
    }
  }

  lemma SourceIsShown(db: Database, n: Graph, row: nat)
    requires row < |RowsOf(db, n.from.table)|
    ensures Shows(SourceBindings(db, n.from), n.from.alias, n.from.table, row)
    ensures Covers(SourceBindings(db, n.from), {n.from.alias})
  {
    hide RowsOf;
    var start := SourceBindings(db, n.from);
    assert n.from.alias in start[row] && start[row][n.from.alias] == At(n.from.table, row);
  }

  /** With LEFT and FULL joins only, every row of the source is shown. */
  lemma SourceSurvives(db: Database, n: Graph, row: nat)
    requires JoinsScoped({n.from.alias}, n.joins) && row < |RowsOf(db, n.from.table)|
    requires forall i :: 0 <= i < |n.joins| ==> KeepsSoFar(n.joins[i])
    ensures Shows(Evaluate(db, n), n.from.alias, n.from.table, row)
  {
    hide Chain, JoinsScoped, Covers, Shows, KeepsSoFar;
    SourceIsShown(db, n, row);
    ChainKeepsShown(db, SourceBindings(db, n.from), {n.from.alias}, n.joins, n.from.alias, n.from.table, row);
  }

  /** Every row of a RIGHT or FULL joined table is shown, when LEFT and FULL joins only come after it. */
  lemma JoinedSurvives(db: Database, n: Graph, k: nat, row: nat)
    requires JoinsScoped({n.from.alias}, n.joins) && k < |n.joins| && KeepsJoined(n.joins[k])
    requires forall i :: k < i < |n.joins| ==> KeepsSoFar(n.joins[i])
    requires row < |RowsOf(db, n.joins[k].rightTable)|
    ensures Shows(Evaluate(db, n), n.joins[k].rightAlias, n.joins[k].rightTable, row)
  {
    hide Chain, JoinsScoped, Shows, KeepsSoFar, KeepsJoined;
    ChainShowsJoined(db, SourceBindings(db, n.from), {n.from.alias}, n.joins, k, row);
  }
}
