/**
  The rows a left-deep chain of joins produces. A binding gives each alias a row of its
  table, or nothing where an outer join found no partner. For INNER chains the result is
  exactly the bindings that satisfy every ON clause, so the order of the joins is free.
 */
module JoinSemantics {
  import opened Text
  import opened Values
  import opened QueryGraph
  import opened Predicates

  type Row = map<string, Value>

  type Database = map<string, seq<Row>>

  datatype Source = At(table: string, index: nat) | Nulls

  type Binding = map<string, Source>

  function RowsOf(db: Database, table: string): seq<Row> {
    if table in db then db[table] else []
  }

  /** The value of alias.column under a binding; NULL for a null-extended row. */
  function Cell(db: Database, b: Binding, alias: string, column: string): Value {
    if alias in b && b[alias].At? && b[alias].index < |RowsOf(db, b[alias].table)| then
      var row := RowsOf(db, b[alias].table)[b[alias].index];
      if column in row then row[column] else Null
    else Null
  }

  /** The ON clause: an equality, which NULL never satisfies. */
  predicate On(db: Database, b: Binding, j: Join) {
    Compare(Eq, Cell(db, b, j.leftAlias, j.leftColumn), Cell(db, b, j.rightAlias, j.rightColumn)) == True
  }

  // ---------- One join step ----------

  /** A binding extended by each matching row of the joined table, from row k on. */
  function Partners(db: Database, b: Binding, j: Join, k: nat): seq<Binding>
    decreases |RowsOf(db, j.rightTable)| - k
  {
    if k >= |RowsOf(db, j.rightTable)| then []
    else
      var b' := b[j.rightAlias := At(j.rightTable, k)];
      (if On(db, b', j) then [b'] else []) + Partners(db, b, j, k + 1)
  }

  function InnerStep(db: Database, acc: seq<Binding>, j: Join): seq<Binding> {
    if acc == [] then [] else Partners(db, acc[0], j, 0) + InnerStep(db, acc[1..], j)
  }

  /** Like the inner step, but a binding without a partner stays, null-extended. */
  function LeftStep(db: Database, acc: seq<Binding>, j: Join): seq<Binding> {
    if acc == [] then []
    else
      var found := Partners(db, acc[0], j, 0);
      (if found == [] then [acc[0][j.rightAlias := Nulls]] else found) + LeftStep(db, acc[1..], j)
  }

  /** The rows of the joined table, from row k on, that no binding matches, with nothing on the left. */
  function Unmatched(db: Database, acc: seq<Binding>, declared: set<string>, j: Join, k: nat): seq<Binding>
    decreases |RowsOf(db, j.rightTable)| - k
  {
    if k >= |RowsOf(db, j.rightTable)| then []
    else
      var alone := (map a | a in declared :: Nulls)[j.rightAlias := At(j.rightTable, k)];
      (if exists b :: b in acc && On(db, b[j.rightAlias := At(j.rightTable, k)], j) then [] else [alone])
      + Unmatched(db, acc, declared, j, k + 1)
  }

  function Step(db: Database, acc: seq<Binding>, declared: set<string>, j: Join): seq<Binding> {
    var kind := Trim(j.kind);
    if kind == JOIN_LEFT then LeftStep(db, acc, j)
    else if kind == JOIN_RIGHT then InnerStep(db, acc, j) + Unmatched(db, acc, declared, j, 0)
    else if kind == JOIN_FULL then LeftStep(db, acc, j) + Unmatched(db, acc, declared, j, 0)
    else InnerStep(db, acc, j)
  }

  function Chain(db: Database, acc: seq<Binding>, declared: set<string>, joins: seq<Join>): seq<Binding>
    decreases |joins|
  {
    if joins == [] then acc
    else Chain(db, Step(db, acc, declared, joins[0]), declared + {joins[0].rightAlias}, joins[1..])
  }

  function SourceBindings(db: Database, from: QuerySource): (r: seq<Binding>)
    ensures |r| == |RowsOf(db, from.table)|
    ensures forall k :: 0 <= k < |r| ==> r[k] == map[from.alias := At(from.table, k)]
  {
    seq(|RowsOf(db, from.table)|, k requires 0 <= k < |RowsOf(db, from.table)| => map[from.alias := At(from.table, k)])
  }

  /** The rows of a normalised graph, before selection and projection. */
  function Evaluate(db: Database, n: Graph): seq<Binding> {
    Chain(db, SourceBindings(db, n.from), {n.from.alias}, n.joins)
  }

  // ---------- What an inner chain should produce ----------

  /** The joined alias has a row of its table, and the ON clause holds. */
  predicate JoinHolds(db: Database, b: Binding, j: Join) {
    && j.rightAlias in b
    && b[j.rightAlias].At? && b[j.rightAlias].table == j.rightTable
    && b[j.rightAlias].index < |RowsOf(db, j.rightTable)|
    && On(db, b, j)
  }

  /** One row for each declared alias and no other, such that every join holds. */
  predicate Satisfies(db: Database, n: Graph, b: Binding) {
    && b.Keys == {n.from.alias} + DeclaredBy(n.joins)
    && b[n.from.alias].At? && b[n.from.alias].table == n.from.table
    && b[n.from.alias].index < |RowsOf(db, n.from.table)|
    && (forall i :: 0 <= i < |n.joins| ==> JoinHolds(db, b, n.joins[i]))
  }

  predicate AllInner(joins: seq<Join>) {
    forall i :: 0 <= i < |joins| ==> Trim(joins[i].kind) == JOIN_INNER
  }

  function Restrict(b: Binding, aliases: set<string>): (r: Binding)
    ensures r.Keys == b.Keys * aliases
  {
    map a | a in b && a in aliases :: b[a]
  }

  // ---------- Members of one step ----------

  lemma {:induction false} PartnersMember(db: Database, b: Binding, j: Join, k: nat, c: Binding)
    ensures c in Partners(db, b, j, k) <==>
              exists i: nat :: k <= i < |RowsOf(db, j.rightTable)| && c == b[j.rightAlias := At(j.rightTable, i)] && On(db, c, j)
    decreases |RowsOf(db, j.rightTable)| - k
  {
    hide On, RowsOf;
    if k < |RowsOf(db, j.rightTable)| {
      PartnersMember(db, b, j, k + 1, c);
    }
  }

  lemma PartnersAre(db: Database, b: Binding, j: Join, c: Binding)
    requires j.rightAlias !in b
    ensures c in Partners(db, b, j, 0) <==> JoinHolds(db, c, j) && c.Keys == b.Keys + {j.rightAlias} && Restrict(c, b.Keys) == b
  {
    hide On, RowsOf, Partners;
    PartnersMember(db, b, j, 0, c);
    if c in Partners(db, b, j, 0) {
      assert Restrict(c, b.Keys) == b;
    }
    if JoinHolds(db, c, j) && c.Keys == b.Keys + {j.rightAlias} && Restrict(c, b.Keys) == b {
      var i := c[j.rightAlias].index;
      assert c == b[j.rightAlias := At(j.rightTable, i)] by {
        forall a | a in b
          ensures c[a] == b[a]
        {
          assert a in Restrict(c, b.Keys);
        }
      }
    }
  }

  /** Every binding so far is about exactly the declared aliases. */
  predicate Covers(acc: seq<Binding>, declared: set<string>) {
    forall i :: 0 <= i < |acc| ==> acc[i].Keys == declared
  }

  lemma {:induction false} InnerStepAre(db: Database, acc: seq<Binding>, declared: set<string>, j: Join, c: Binding)
    requires Covers(acc, declared) && j.rightAlias !in declared
    ensures c in InnerStep(db, acc, j) <==>
              JoinHolds(db, c, j) && c.Keys == declared + {j.rightAlias} && Restrict(c, declared) in acc
  {
    hide JoinHolds, Partners;
    if acc != [] {
      PartnersAre(db, acc[0], j, c);
      InnerStepAre(db, acc[1..], declared, j, c);
      assert Restrict(c, declared) in acc <==> Restrict(c, declared) == acc[0] || Restrict(c, declared) in acc[1..];
    }
  }

  lemma InnerStepCovers(db: Database, acc: seq<Binding>, declared: set<string>, j: Join)
    requires Covers(acc, declared) && j.rightAlias !in declared
    ensures Covers(InnerStep(db, acc, j), declared + {j.rightAlias})
  {
    hide JoinHolds, InnerStep;
    var next := InnerStep(db, acc, j);
    forall i | 0 <= i < |next|
      ensures next[i].Keys == declared + {j.rightAlias}
    {
      InnerStepAre(db, acc, declared, j, next[i]);
    }
  }

  lemma JoinHoldsLocally(db: Database, b: Binding, aliases: set<string>, j: Join)
    requires j.leftAlias in aliases && j.rightAlias in aliases
    ensures JoinHolds(db, Restrict(b, aliases), j) <==> JoinHolds(db, b, j)
  {
    hide RowsOf, Compare;
  }

  // ---------- The whole chain ----------

  lemma {:induction false} InnerChainAre(
    db: Database, acc: seq<Binding>, declared: set<string>, joins: seq<Join>, c: Binding)
    requires Covers(acc, declared) && JoinsScoped(declared, joins) && AllInner(joins)
    ensures c in Chain(db, acc, declared, joins) <==>
              && c.Keys == declared + DeclaredBy(joins)
              && Restrict(c, declared) in acc
              && forall i :: 0 <= i < |joins| ==> JoinHolds(db, c, joins[i])
    decreases |joins|
  {
    hide JoinHolds, InnerStep, DeclaredBy, Covers, Trim;
    if joins == [] {
      NothingDeclared();
      assert declared + DeclaredBy(joins) == declared;
      if c.Keys == declared {
        assert Restrict(c, declared) == c;
      } else if c in acc {
        CoversAt(acc, declared, c);
      }
    } else {
      var j, rest := joins[0], joins[1..];
      var more := declared + {j.rightAlias};
      var next := InnerStep(db, acc, j);
      assert Step(db, acc, declared, j) == next by {
        assert JOIN_INNER[0] == 'I' && JOIN_LEFT[0] == 'L' && JOIN_RIGHT[0] == 'R' && JOIN_FULL[0] == 'F';
      }
      InnerStepCovers(db, acc, declared, j);
      InnerChainAre(db, next, more, rest, c);
      InnerStepAre(db, acc, declared, j, Restrict(c, more));
      JoinHoldsLocally(db, c, more, j);
      assert Restrict(Restrict(c, more), declared) == Restrict(c, declared);
      DeclaredByCons(joins);
      assert declared + DeclaredBy(joins) == more + DeclaredBy(rest);
      HoldsCons(db, c, joins);
    }
  }

  lemma CoversAt(acc: seq<Binding>, declared: set<string>, c: Binding)
    requires Covers(acc, declared) && c in acc
    ensures c.Keys == declared
  {
  }

  lemma HoldsCons(db: Database, c: Binding, joins: seq<Join>)
    requires joins != []
    ensures (forall i :: 0 <= i < |joins| ==> JoinHolds(db, c, joins[i])) <==>
              JoinHolds(db, c, joins[0]) && forall i :: 0 <= i < |joins[1..]| ==> JoinHolds(db, c, joins[1..][i])
  {
    hide JoinHolds;
    if JoinHolds(db, c, joins[0]) && forall i :: 0 <= i < |joins[1..]| ==> JoinHolds(db, c, joins[1..][i]) {
      forall i | 0 <= i < |joins|
        ensures JoinHolds(db, c, joins[i])
      {
        if i > 0 {
          assert joins[1..][i - 1] == joins[i];
        }
      }
    }
  }

  /** An INNER chain produces exactly the bindings of one row per alias that satisfy every ON clause. */
  lemma InnerChainMeaning(db: Database, n: Graph, b: Binding)
    requires JoinsScoped({n.from.alias}, n.joins) && AllInner(n.joins)
    ensures b in Evaluate(db, n) <==> Satisfies(db, n, b)
  {
    hide JoinHolds, JoinsScoped, AllInner, Chain, DeclaredBy;
    var start := SourceBindings(db, n.from);
    InnerChainAre(db, start, {n.from.alias}, n.joins, b);
    if n.from.alias in b {
      var r := Restrict(b, {n.from.alias});
      assert r == map[n.from.alias := b[n.from.alias]];
      if r in start {
        var k :| 0 <= k < |start| && start[k] == r;
        assert r[n.from.alias] == At(n.from.table, k);
      }
      if b[n.from.alias].At? && b[n.from.alias].table == n.from.table && b[n.from.alias].index < |start| {
        assert start[b[n.from.alias].index] == r;
      }
    }
  }

  // ---------- No binding twice ----------

  predicate NoDuplicates<T(==)>(s: seq<T>) {
    forall i, j :: 0 <= i < j < |s| ==> s[i] != s[j]
  }

  lemma NoDuplicatesConcat<T>(a: seq<T>, b: seq<T>)
    requires NoDuplicates(a) && NoDuplicates(b)
    requires forall x :: x in a ==> x !in b
    ensures NoDuplicates(a + b)
  {
    var s := a + b;
    forall i, j | 0 <= i < j < |s|
      ensures s[i] != s[j]
    {
      if i < |a| <= j {
        assert s[i] in a && s[j] in b;
      } else if |a| <= i {
        assert s[i] == b[i - |a|] && s[j] == b[j - |a|];
      }
    }
  }

  lemma {:induction false} PartnersNoDuplicates(db: Database, b: Binding, j: Join, k: nat)
    ensures NoDuplicates(Partners(db, b, j, k))
    decreases |RowsOf(db, j.rightTable)| - k
  {
    hide On, RowsOf;
    if k < |RowsOf(db, j.rightTable)| {
      PartnersNoDuplicates(db, b, j, k + 1);
      var c := b[j.rightAlias := At(j.rightTable, k)];
      PartnersMember(db, b, j, k + 1, c);
      assert c[j.rightAlias] == At(j.rightTable, k);
      NoDuplicatesConcat(if On(db, c, j) then [c] else [], Partners(db, b, j, k + 1));
    }
  }

  lemma {:induction false} InnerStepNoDuplicates(db: Database, acc: seq<Binding>, declared: set<string>, j: Join)
    requires Covers(acc, declared) && j.rightAlias !in declared && NoDuplicates(acc)
    ensures NoDuplicates(InnerStep(db, acc, j))
  {
    hide JoinHolds, Partners;
    if acc != [] {
      PartnersNoDuplicates(db, acc[0], j, 0);
      InnerStepNoDuplicates(db, acc[1..], declared, j);
      forall c | c in Partners(db, acc[0], j, 0)
        ensures c !in InnerStep(db, acc[1..], j)
      {
        PartnersAre(db, acc[0], j, c);
        InnerStepAre(db, acc[1..], declared, j, c);
        assert acc[0] !in acc[1..];
      }
      NoDuplicatesConcat(Partners(db, acc[0], j, 0), InnerStep(db, acc[1..], j));
    }
  }

  lemma {:induction false} InnerChainNoDuplicates(db: Database, acc: seq<Binding>, declared: set<string>, joins: seq<Join>)
    requires Covers(acc, declared) && JoinsScoped(declared, joins) && AllInner(joins) && NoDuplicates(acc)
    ensures NoDuplicates(Chain(db, acc, declared, joins))
    decreases |joins|
  {
    hide InnerStep, Covers, NoDuplicates, Trim;
    if joins != [] {
      assert JOIN_INNER[0] == 'I' && JOIN_LEFT[0] == 'L' && JOIN_RIGHT[0] == 'R' && JOIN_FULL[0] == 'F';
      InnerStepCovers(db, acc, declared, joins[0]);
      InnerStepNoDuplicates(db, acc, declared, joins[0]);
      InnerChainNoDuplicates(db, InnerStep(db, acc, joins[0]), declared + {joins[0].rightAlias}, joins[1..]);
    }
  }

  /** Each satisfying binding is produced once. */
  lemma EvaluateNoDuplicates(db: Database, n: Graph)
    requires JoinsScoped({n.from.alias}, n.joins) && AllInner(n.joins)
    ensures NoDuplicates(Evaluate(db, n))
  {
    hide JoinsScoped, AllInner, Chain;
    var start := SourceBindings(db, n.from);
    forall i, j | 0 <= i < j < |start|
      ensures start[i] != start[j]
    {
      assert start[i][n.from.alias] != start[j][n.from.alias];
    }
    InnerChainNoDuplicates(db, start, {n.from.alias}, n.joins);
  }

  lemma {:induction false} CountOnce<T>(s: seq<T>, x: T)
    requires NoDuplicates(s)
    ensures multiset(s)[x] == if x in s then 1 else 0
  {
    if s != [] {
      CountOnce(s[1..], x);
      assert s == [s[0]] + s[1..];
      assert s[0] !in s[1..];
    }
  }

  lemma SameMembersSameBag<T>(a: seq<T>, b: seq<T>)
    requires NoDuplicates(a) && NoDuplicates(b)
    requires forall x :: x in a <==> x in b
    ensures multiset(a) == multiset(b)
  {
    forall x
      ensures multiset(a)[x] == multiset(b)[x]
    {
      CountOnce(a, x);
      CountOnce(b, x);
    }
  }

  lemma SameJoinsSameMeaning(db: Database, m: Graph, n: Graph, b: Binding)
    requires m.from == n.from && multiset(m.joins) == multiset(n.joins)
    ensures Satisfies(db, m, b) ==> Satisfies(db, n, b)
  {
    hide JoinHolds;
    if Satisfies(db, m, b) {
      forall j | j in multiset(m.joins)
        ensures j in m.joins && j in n.joins
      {
        assert j in multiset(n.joins);
      }
      assert DeclaredBy(n.joins) <= DeclaredBy(m.joins) by {
        SubsetDeclared(n.joins, m.joins);
      }
      assert DeclaredBy(m.joins) <= DeclaredBy(n.joins) by {
        SubsetDeclared(m.joins, n.joins);
      }
      forall i | 0 <= i < |n.joins|
        ensures JoinHolds(db, b, n.joins[i])
      {
        assert n.joins[i] in multiset(n.joins);
        assert n.joins[i] in m.joins;
      }
    }
  }

  lemma SubsetDeclared(a: seq<Join>, b: seq<Join>)
    requires multiset(a) == multiset(b)
    ensures DeclaredBy(a) <= DeclaredBy(b)
  {
    forall x | x in DeclaredBy(a)
      ensures x in DeclaredBy(b)
    {
      var i :| 0 <= i < |a| && a[i].rightAlias == x;
      assert a[i] in multiset(b);
      var k :| 0 <= k < |b| && b[k] == a[i];
    }
  }

  /** Any two scoped orders of the same INNER joins produce the same rows, each as often. */
  lemma InnerOrderIsFree(db: Database, m: Graph, n: Graph)
    requires m.from == n.from && multiset(m.joins) == multiset(n.joins)
    requires JoinsScoped({m.from.alias}, m.joins) && JoinsScoped({n.from.alias}, n.joins)
    requires AllInner(m.joins) && AllInner(n.joins)
    ensures multiset(Evaluate(db, m)) == multiset(Evaluate(db, n))
  {
    hide Evaluate, Satisfies, JoinsScoped, AllInner;
    forall b
      ensures b in Evaluate(db, m) <==> b in Evaluate(db, n)
    {
      InnerChainMeaning(db, m, b);
      InnerChainMeaning(db, n, b);
      SameJoinsSameMeaning(db, m, n, b);
      SameJoinsSameMeaning(db, n, m, b);
    }
    EvaluateNoDuplicates(db, m);
    EvaluateNoDuplicates(db, n);
    SameMembersSameBag(Evaluate(db, m), Evaluate(db, n));
  }

  // ---------- Left joins lose no row ----------

  /** b carries the row that c was extended from. */
  predicate Extends(b: Binding, c: Binding) {
    forall a :: a in c ==> a in b && b[a] == c[a]
  }

  lemma {:induction false} LeftStepKeeps(db: Database, acc: seq<Binding>, j: Join, i: nat) returns (k: nat)
    requires i < |acc| && j.rightAlias !in acc[i]
    ensures k < |LeftStep(db, acc, j)| && Extends(LeftStep(db, acc, j)[k], acc[i])
  {
    hide On, Partners;
    var found := Partners(db, acc[0], j, 0);
    var first := if found == [] then [acc[0][j.rightAlias := Nulls]] else found;
    if i == 0 {
      if found != [] {
        assert found[0] in found;
        PartnersAre(db, acc[0], j, found[0]);
        forall a | a in acc[0]
          ensures a in found[0] && found[0][a] == acc[0][a]
        {
          assert a in Restrict(found[0], acc[0].Keys);
        }
      }
      assert LeftStep(db, acc, j)[0] == first[0];
      k := 0;
    } else {
      var k' := LeftStepKeeps(db, acc[1..], j, i - 1);
      k := |first| + k';
      assert LeftStep(db, acc, j)[k] == LeftStep(db, acc[1..], j)[k'];
    }
  }

  lemma {:induction false} LeftStepCovers(db: Database, acc: seq<Binding>, declared: set<string>, j: Join)
    requires Covers(acc, declared) && j.rightAlias !in declared
    ensures Covers(LeftStep(db, acc, j), declared + {j.rightAlias})
  {
    hide JoinHolds, Partners;
    if acc != [] {
      LeftStepCovers(db, acc[1..], declared, j);
      var found := Partners(db, acc[0], j, 0);
      forall i | 0 <= i < |found|
        ensures found[i].Keys == declared + {j.rightAlias}
      {
        PartnersAre(db, acc[0], j, found[i]);
      }
    }
  }

  /** In a chain of LEFT joins every binding of the source survives in some result. */
  lemma {:induction false} LeftChainKeeps(
    db: Database, acc: seq<Binding>, declared: set<string>, joins: seq<Join>, i: nat) returns (k: nat)
    requires Covers(acc, declared) && JoinsScoped(declared, joins)
    requires forall n :: 0 <= n < |joins| ==> Trim(joins[n].kind) == JOIN_LEFT
    requires i < |acc|
    ensures k < |Chain(db, acc, declared, joins)| && Extends(Chain(db, acc, declared, joins)[k], acc[i])
    decreases |joins|
  {
    hide LeftStep, Trim;
    if joins == [] {
      k := i;
    } else {
      var next := LeftStep(db, acc, joins[0]);
      var k' := LeftStepKeeps(db, acc, joins[0], i);
      LeftStepCovers(db, acc, declared, joins[0]);
      k := LeftChainKeeps(db, next, declared + {joins[0].rightAlias}, joins[1..], k');
    }
  }

  /** A query whose joins are all LEFT shows every row of its source. */
  lemma LeftJoinsKeepSource(db: Database, n: Graph, row: nat)
    requires JoinsScoped({n.from.alias}, n.joins)
    requires forall i :: 0 <= i < |n.joins| ==> Trim(n.joins[i].kind) == JOIN_LEFT
    requires row < |RowsOf(db, n.from.table)|
    ensures exists b :: b in Evaluate(db, n) && n.from.alias in b && b[n.from.alias] == At(n.from.table, row)
  {
    hide Chain, JoinsScoped, Trim;
    var start := SourceBindings(db, n.from);
    var k := LeftChainKeeps(db, start, {n.from.alias}, n.joins, row);
    assert n.from.alias in start[row];
    assert Evaluate(db, n)[k] in Evaluate(db, n);
  }
}
