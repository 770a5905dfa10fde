/**
  A reader for the SQL text that GenerateSQL prints, and the round trip: whatever the
  identifiers contain, the reader recovers the graph. Delimited identifiers follow
  section 5.2 of ISO/IEC 9075-2: a double quote inside one is written twice.
 */
module SqlReader {
  import opened Results
  import opened Text
  import opened QueryGraph
  import opened Sql

  /** The part of a graph that is printed when it has no raw SQL and no predicates. */
  datatype Skeleton = Skeleton(
    from: QuerySource,
    joins: seq<Join>,
    fields: seq<FieldRef>,
    groupBy: seq<FieldRef>,
    orderBy: seq<OrderBy>,
    limit: nat)

  // ---------- Reading ----------

  function Expect(s: string, literal: string): (r: Option<string>)
    ensures r.Some? ==> |r.value| == |s| - |literal|
  {
    if HasPrefix(s, literal) then Some(s[|literal|..]) else None
  }

  function ReadBody(s: string): (r: Option<(string, string)>)
    ensures r.Some? ==> |r.value.1| < |s|
  {
    if s == "" then None
    else if s[0] != '"' then
      match ReadBody(s[1..])
      case None => None
      case Some((v, rest)) => Some(([s[0]] + v, rest))
    else if |s| > 1 && s[1] == '"' then
      match ReadBody(s[2..])
      case None => None
      case Some((v, rest)) => Some((['"'] + v, rest))
    else Some(("", s[1..]))
  }

  function ReadQuoted(s: string): (r: Option<(string, string)>)
    ensures r.Some? ==> |r.value.1| < |s|
  {
    if s != "" && s[0] == '"' then ReadBody(s[1..]) else None
  }

  /** source.column */
  function ReadColumn(s: string): (r: Option<((string, string), string)>)
    ensures r.Some? ==> |r.value.1| < |s|
  {
    match ReadQuoted(s)
    case None => None
    case Some((source, rest)) =>
      match Expect(rest, ['.'])
      case None => None
      case Some(rest) =>
        match ReadQuoted(rest)
        case None => None
        case Some((column, rest)) => Some(((source, column), rest))
  }

  function ReadField(s: string): (r: Option<(FieldRef, string)>)
    ensures r.Some? ==> |r.value.1| < |s|
  {
    match ReadColumn(s)
    case None => None
    case Some(((source, column), rest)) =>
      if HasPrefix(rest, " AS ") then
        match ReadQuoted(rest[4..])
        case None => None
        case Some((alias, rest)) => Some((FieldRef("", alias, source, column), rest))
      else Some((FieldRef("", "", source, column), rest))
  }

  function ReadFields(s: string): Option<(seq<FieldRef>, string)>
    decreases |s|
  {
    match ReadField(s)
    case None => None
    case Some((f, rest)) =>
      if HasPrefix(rest, ", ") then
        match ReadFields(rest[2..])
        case None => None
        case Some((fs, rest)) => Some(([f] + fs, rest))
      else Some(([f], rest))
  }

  function ReadOrder(s: string): (r: Option<(OrderBy, string)>)
    ensures r.Some? ==> |r.value.1| < |s|
  {
    match ReadColumn(s)
    case None => None
    case Some(((source, column), rest)) =>
      if HasPrefix(rest, " DESC") then Some((OrderBy("", source, column, true), rest[5..]))
      else if HasPrefix(rest, " ASC") then Some((OrderBy("", source, column, false), rest[4..]))
      else None
  }

  function ReadOrders(s: string): Option<(seq<OrderBy>, string)>
    decreases |s|
  {
    match ReadOrder(s)
    case None => None
    case Some((o, rest)) =>
      if HasPrefix(rest, ", ") then
        match ReadOrders(rest[2..])
        case None => None
        case Some((os, rest)) => Some(([o] + os, rest))
      else Some(([o], rest))
  }

  /** The join keyword at the front, if there is one. */
  function JoinAhead(s: string): Option<string> {
    if HasPrefix(s, " " + JOIN_INNER + " ") then Some(JOIN_INNER)
    else if HasPrefix(s, " " + JOIN_LEFT + " ") then Some(JOIN_LEFT)
    else if HasPrefix(s, " " + JOIN_RIGHT + " ") then Some(JOIN_RIGHT)
    else if HasPrefix(s, " " + JOIN_FULL + " ") then Some(JOIN_FULL)
    else None
  }

  /** table alias ON left.column = alias.column */
  function ReadJoinBody(kind: string, s: string): (r: Option<(Join, string)>)
    ensures r.Some? ==> |r.value.1| < |s|
  {
    match ReadQuoted(s)
    case None => None
    case Some((table, rest)) =>
      match Expect(rest, " ")
      case None => None
      case Some(rest) =>
        match ReadQuoted(rest)
        case None => None
        case Some((alias, rest)) =>
          match Expect(rest, " ON ")
          case None => None
          case Some(rest) => ReadJoinCondition(kind, table, alias, rest)
  }

  function ReadJoinCondition(kind: string, table: string, alias: string, s: string): (r: Option<(Join, string)>)
    ensures r.Some? ==> |r.value.1| < |s|
  {
    match ReadColumn(s)
    case None => None
    case Some((left, rest)) =>
      match Expect(rest, " = ")
      case None => None
      case Some(rest) =>
        match ReadColumn(rest)
        case None => None
        case Some((right, rest)) =>
          if right.0 == alias then Some((Join(kind, left.0, left.1, table, alias, right.1), rest)) else None
  }

  function ReadJoins(s: string): Option<(seq<Join>, string)>
    decreases |s|
  {
    match JoinAhead(s)
    case None => Some(([], s))
    case Some(kind) =>
      match Expect(s, " " + kind + " ")
      case None => None
      case Some(rest) =>
        match ReadJoinBody(kind, rest)
        case None => None
        case Some((j, rest)) =>
          match ReadJoins(rest)
          case None => None
          case Some((js, rest)) => Some(([j] + js, rest))
  }

  function ReadDecimal(s: string): Option<nat> {
    if s == "" || !('0' <= s[|s| - 1] <= '9') then None
    else
      var d := s[|s| - 1] as int - '0' as int;
      if |s| == 1 then Some(d)
      else
        match ReadDecimal(s[..|s| - 1])
        case None => None
        case Some(n) => Some(10 * n + d)
  }

  function ReadSelect(s: string): Option<(seq<FieldRef>, string)> {
    match Expect(s, "SELECT ")
    case None => None
    case Some(rest) => if HasPrefix(rest, "*") then Some(([], rest[1..])) else ReadFields(rest)
  }

  function ReadFrom(s: string): Option<((QuerySource, seq<Join>), string)> {
    match Expect(s, " FROM ")
    case None => None
    case Some(rest) =>
      match ReadQuoted(rest)
      case None => None
      case Some((table, rest)) =>
        match Expect(rest, " ")
        case None => None
        case Some(rest) =>
          match ReadQuoted(rest)
          case None => None
          case Some((alias, rest)) =>
            match ReadJoins(rest)
            case None => None
            case Some((joins, rest)) => Some(((QuerySource(table, alias), joins), rest))
  }

  function ReadGroupBy(s: string): Option<(seq<FieldRef>, string)> {
    if HasPrefix(s, " GROUP BY ") then ReadFields(s[10..]) else Some(([], s))
  }

  function ReadOrderBy(s: string): Option<(seq<OrderBy>, string)> {
    if HasPrefix(s, " ORDER BY ") then ReadOrders(s[10..]) else Some(([], s))
  }

  function ReadLimit(s: string): Option<nat> {
    if s == "" then Some(0)
    else
      match Expect(s, " LIMIT ")
      case None => None
      case Some(rest) => ReadDecimal(rest)
  }

  function ReadTail(s: string): Option<(seq<FieldRef>, seq<OrderBy>, nat)> {
    match ReadGroupBy(s)
    case None => None
    case Some((groupBy, rest)) =>
      match ReadOrderBy(rest)
      case None => None
      case Some((orderBy, rest)) =>
        match ReadLimit(rest)
        case None => None
        case Some(limit) => Some((groupBy, orderBy, limit))
  }

  function ReadQuery(s: string): Option<Skeleton> {
    match ReadSelect(s)
    case None => None
    case Some((fields, rest)) =>
      match ReadFrom(rest)
      case None => None
      case Some(((from, joins), rest)) =>
        match ReadTail(rest)
        case None => None
        case Some((groupBy, orderBy, limit)) => Some(Skeleton(from, joins, fields, groupBy, orderBy, limit))
  }

  // ---------- Which graphs print without loss ----------

  predicate PlainField(f: FieldRef) {
    f.expression == "" && f.column != "*" && Trimmed(f.alias)
  }

  predicate PlainOrder(o: OrderBy) {
    o.expression == "" && o.column != "*"
  }

  predicate PlainKind(j: Join) {
    j.kind == "" || j.kind == JOIN_INNER || j.kind == JOIN_LEFT || j.kind == JOIN_RIGHT || j.kind == JOIN_FULL
  }

  predicate PlainJoin(j: Join) {
    PlainKind(j) && Trimmed(j.rightAlias)
  }

  /** Outside its predicates: no raw SQL, no "*", and aliases without surrounding white space. */
  predicate PlainParts(g: Graph) {
    && Blank(g.condition)
    && (forall i :: 0 <= i < |g.joins| ==> PlainJoin(g.joins[i]))
    && (forall i :: 0 <= i < |g.fields| ==> PlainField(g.fields[i]))
    && (forall i :: 0 <= i < |g.groupBy| ==> PlainField(g.groupBy[i]))
    && (forall i :: 0 <= i < |g.orderBy| ==> PlainOrder(g.orderBy[i]))
  }

  predicate Plain(g: Graph) {
    PlainParts(g) && g.predicates == []
  }

  function SkeletonOf(n: Graph): Skeleton {
    Skeleton(n.from, n.joins, n.fields, n.groupBy, n.orderBy, if n.limit > 0 then n.limit else 0)
  }

  // ---------- Identifiers, columns, fields ----------

  lemma Assoc(a: string, b: string, c: string)
    ensures (a + b) + c == a + (b + c)
  {
  }

  predicate NoQuoteAhead(rest: string) {
    rest == "" || rest[0] != '"'
  }

  lemma {:induction false} EscapeReads(v: string, rest: string)
    requires NoQuoteAhead(rest)
    ensures ReadBody(Escape(v) + (['"'] + rest)) == Some((v, rest))
  {
    var s := Escape(v) + (['"'] + rest);
    if v == "" {
      assert s == ['"'] + rest;
    } else {
      EscapeReads(v[1..], rest);
      assert v == [v[0]] + v[1..];
      if v[0] == '"' {
        assert s[2..] == Escape(v[1..]) + (['"'] + rest);
      } else {
        assert s[1..] == Escape(v[1..]) + (['"'] + rest);
      }
    }
  }

  /** A delimited identifier reads back as the identifier, quotes and all. */
  lemma QuoteReads(v: string, rest: string)
    requires NoQuoteAhead(rest)
    ensures ReadQuoted(Quote(v) + rest) == Some((v, rest))
  {
    EscapeReads(v, rest);
    assert (Quote(v) + rest)[1..] == Escape(v) + (['"'] + rest);
  }

  lemma NotAhead(s: string, keyword: string, i: nat)
    requires i < |keyword| && (|s| <= i || s[i] != keyword[i])
    ensures !HasPrefix(s, keyword)
  {
    if |keyword| <= |s| {
      assert s[..|keyword|][i] == s[i];
    }
  }

  lemma ExpectReads(literal: string, rest: string)
    ensures Expect(literal + rest, literal) == Some(rest)
    ensures HasPrefix(literal + rest, literal) && (literal + rest)[|literal|..] == rest
  {
    PrefixOfConcat(literal, rest);
  }

  lemma ColumnReads(source: string, column: string, rest: string)
    requires NoQuoteAhead(rest)
    ensures ReadColumn(Column(source, column) + rest) == Some(((source, column), rest))
  {
    hide Quote, ReadQuoted;
    var tail := Quote(column) + rest;
    assert Column(source, column) + rest == Quote(source) + (['.'] + tail);
    QuoteReads(source, ['.'] + tail);
    ExpectReads(['.'], tail);
    QuoteReads(column, rest);
  }

  /** What may follow a field: nothing that could be part of it. */
  predicate AfterField(rest: string) {
    rest == "" || rest[0] == ',' || (rest[0] == ' ' && |rest| > 1 && rest[1] != 'A')
  }

  lemma FieldReads(f: FieldRef, rest: string)
    requires PlainField(f) && AfterField(rest)
    ensures ReadField(RenderField(f) + rest) == Some((f, rest))
  {
    hide Quote, ReadQuoted, Column, ReadColumn;
    assert Blank("");
    if f.alias == "" {
      assert RenderField(f) + rest == Column(f.source, f.column) + rest;
      ColumnReads(f.source, f.column, rest);
      assert " AS "[0] == ' ' && " AS "[1] == 'A';
      if rest != "" {
        NotAhead(rest, " AS ", if rest[0] == ',' then 0 else 1);
      }
    } else {
      var tail := Quote(f.alias) + rest;
      assert RenderField(f) + rest == Column(f.source, f.column) + (" AS " + tail);
      assert (" AS " + tail)[0] == ' ';
      ColumnReads(f.source, f.column, " AS " + tail);
      ExpectReads(" AS ", tail);
      QuoteReads(f.alias, rest);
    }
  }

  /** What may follow a list: no separator and nothing that belongs to its last item. */
  predicate AfterList(rest: string) {
    rest == "" || (rest[0] == ' ' && |rest| > 1 && rest[1] != 'A')
  }

  lemma NoComma(rest: string)
    requires AfterList(rest)
    ensures !HasPrefix(rest, ", ")
  {
    assert ", "[0] == ',';
    NotAhead(rest, ", ", 0);
  }

  lemma {:induction false} FieldListReads(fs: seq<FieldRef>, rest: string)
    requires fs != [] && (forall i :: 0 <= i < |fs| ==> PlainField(fs[i])) && AfterList(rest)
    ensures ReadFields(FieldList(fs) + rest) == Some((fs, rest))
  {
    hide RenderField, ReadField, PlainField;
    var parts := RenderFields(fs);
    if |fs| == 1 {
      assert FieldList(fs) == RenderField(fs[0]);
      FieldReads(fs[0], rest);
      NoComma(rest);
      assert fs == [fs[0]];
    } else {
      assert parts[1..] == RenderFields(fs[1..]);
      var tail := FieldList(fs[1..]) + rest;
      assert FieldList(fs) + rest == RenderField(fs[0]) + (", " + tail);
      assert (", " + tail)[0] == ',';
      FieldReads(fs[0], ", " + tail);
      ExpectReads(", ", tail);
      FieldListReads(fs[1..], rest);
      assert fs == [fs[0]] + fs[1..];
    }
  }

  lemma OrderReads(o: OrderBy, rest: string)
    requires PlainOrder(o)
    ensures ReadOrder(RenderOrder(o) + rest) == Some((o, rest))
  {
    hide Column, ReadColumn;
    assert Blank("");
    var suffix := if o.desc then " DESC" else " ASC";
    assert RenderOrder(o) + rest == Column(o.source, o.column) + (suffix + rest);
    assert (suffix + rest)[0] == ' ';
    ColumnReads(o.source, o.column, suffix + rest);
    ExpectReads(suffix, rest);
    if !o.desc {
      assert (suffix + rest)[1] == 'A' && " DESC"[1] == 'D';
      NotAhead(suffix + rest, " DESC", 1);
    }
  }

  lemma {:induction false} OrderListReads(os: seq<OrderBy>, rest: string)
    requires os != [] && (forall i :: 0 <= i < |os| ==> PlainOrder(os[i])) && AfterList(rest)
    ensures ReadOrders(OrderList(os) + rest) == Some((os, rest))
  {
    hide RenderOrder, ReadOrder, PlainOrder;
    if |os| == 1 {
      assert OrderList(os) == RenderOrder(os[0]);
      OrderReads(os[0], rest);
      NoComma(rest);
      assert os == [os[0]];
    } else {
      assert RenderOrders(os)[1..] == RenderOrders(os[1..]);
      var tail := OrderList(os[1..]) + rest;
      assert OrderList(os) + rest == RenderOrder(os[0]) + (", " + tail);
      OrderReads(os[0], ", " + tail);
      ExpectReads(", ", tail);
      OrderListReads(os[1..], rest);
      assert os == [os[0]] + os[1..];
    }
  }

  // ---------- Joins ----------

  /** A join as NormalizeGraph leaves it, in a plain graph. */
  predicate NormalJoin(j: Join) {
    && (j.kind == JOIN_INNER || j.kind == JOIN_LEFT || j.kind == JOIN_RIGHT || j.kind == JOIN_FULL)
    && Trimmed(j.rightAlias) && Trimmed(j.leftAlias) && j.leftAlias != ""
  }

  lemma JoinBodyReads(j: Join, fromAlias: string, rest: string)
    requires NormalJoin(j) && NoQuoteAhead(rest)
    ensures ReadJoinBody(j.kind, Quote(j.rightTable) + (" " + (Quote(j.rightAlias) + (" ON " + (JoinOn(j, fromAlias) + rest)))))
              == Some((j, rest))
  {
    hide Quote, ReadQuoted, Column, ReadColumn, Trim;
    var on := JoinOn(j, fromAlias) + rest;
    var right := Column(j.rightAlias, j.rightColumn) + rest;
    QuoteReads(j.rightTable, " " + (Quote(j.rightAlias) + (" ON " + on)));
    ExpectReads(" ", Quote(j.rightAlias) + (" ON " + on));
    assert (" ON " + on)[0] == ' ';
    QuoteReads(j.rightAlias, " ON " + on);
    ExpectReads(" ON ", on);
    assert on == Column(j.leftAlias, j.leftColumn) + (" = " + right);
    assert (" = " + right)[0] == ' ';
    ColumnReads(j.leftAlias, j.leftColumn, " = " + right);
    ExpectReads(" = ", right);
    ColumnReads(j.rightAlias, j.rightColumn, rest);
  }

  lemma JoinAheadOf(kind: string, rest: string)
    requires kind == JOIN_INNER || kind == JOIN_LEFT || kind == JOIN_RIGHT || kind == JOIN_FULL
    ensures JoinAhead(" " + kind + " " + rest) == Some(kind)
  {
    var s := " " + kind + " " + rest;
    ExpectReads(" " + kind + " ", rest);
    assert s[1] == kind[0];
    if kind != JOIN_INNER {
      NotAhead(s, " " + JOIN_INNER + " ", 1);
      if kind != JOIN_LEFT {
        NotAhead(s, " " + JOIN_LEFT + " ", 1);
        if kind != JOIN_RIGHT {
          NotAhead(s, " " + JOIN_RIGHT + " ", 1);
        }
      }
    }
  }

  lemma {:induction false} JoinsRead(js: seq<Join>, fromAlias: string, rest: string)
    requires (forall i :: 0 <= i < |js| ==> NormalJoin(js[i])) && NoQuoteAhead(rest) && JoinAhead(rest).None?
    ensures ReadJoins(RenderJoins(js, fromAlias) + rest) == Some((js, rest))
    decreases |js|
  {
    hide Quote, JoinOn, ReadJoinBody, JoinAhead, Trim;
    if js == [] {
      assert RenderJoins(js, fromAlias) + rest == rest;
    } else {
      var j := js[0];
      var more := RenderJoins(js[1..], fromAlias) + rest;
      var keyword := " " + j.kind + " ";
      var body := Quote(j.rightTable) + (" " + (Quote(j.rightAlias) + (" ON " + (JoinOn(j, fromAlias) + more))));
      assert RenderJoins(js, fromAlias) + rest == RenderJoin(j, fromAlias) + more;
      RenderJoinSplits(j, fromAlias, more);
      JoinAheadOf(j.kind, body);
      ExpectReads(keyword, body);
      assert NoQuoteAhead(more) by {
        if js[1..] != [] {
          assert more[0] == ' ';
        } else {
          assert more == rest;
        }
      }
      JoinBodyReads(j, fromAlias, more);
      JoinsRead(js[1..], fromAlias, rest);
      assert js == [js[0]] + js[1..];
    }
  }

  lemma RenderJoinSplits(j: Join, fromAlias: string, more: string)
    ensures RenderJoin(j, fromAlias) + more ==
              " " + j.kind + " " + (Quote(j.rightTable) + (" " + (Quote(j.rightAlias) + (" ON " + (JoinOn(j, fromAlias) + more)))))
  {
    hide Quote, JoinOn;
    var a := " " + j.kind + " ";
    var b, c, d := Quote(j.rightTable), Quote(j.rightAlias), JoinOn(j, fromAlias);
    assert RenderJoin(j, fromAlias) == a + b + " " + c + " ON " + d;
    Assoc(a + b + " " + c + " ON ", d, more);
    Assoc(a + b + " " + c, " ON ", d + more);
    Assoc(a + b + " ", c, " ON " + (d + more));
    Assoc(a + b, " ", c + (" ON " + (d + more)));
    Assoc(a, b, " " + (c + (" ON " + (d + more))));
  }

  // ---------- Numbers and the tail ----------

  lemma {:induction false} DecimalReads(n: nat)
    ensures ReadDecimal(Decimal(n)) == Some(n) && Decimal(n) != ""
  {
    if n >= 10 {
      DecimalReads(n / 10);
      assert Decimal(n)[..|Decimal(n)| - 1] == Decimal(n / 10);
      assert 10 * (n / 10) + n % 10 == n;
    }
  }

  function LimitText(limit: int): string {
    if limit > 0 then " LIMIT " + Decimal(limit) else ""
  }

  function OrderText(os: seq<OrderBy>): string {
    if os == [] then "" else " ORDER BY " + OrderList(os)
  }

  function GroupText(fs: seq<FieldRef>): string {
    if fs == [] then "" else " GROUP BY " + FieldList(fs)
  }

  lemma LimitReads(limit: int)
    ensures ReadLimit(LimitText(limit)) == Some(if limit > 0 then limit else 0)
    ensures AfterList(LimitText(limit))
    ensures limit > 0 ==> |LimitText(limit)| > 3 && LimitText(limit)[..3] == " LI"
    ensures limit <= 0 ==> LimitText(limit) == ""
  {
    hide Decimal, ReadDecimal;
    if limit > 0 {
      DecimalReads(limit);
      ExpectReads(" LIMIT ", Decimal(limit));
    }
  }

  lemma OrderByReads(os: seq<OrderBy>, limit: int)
    requires forall i :: 0 <= i < |os| ==> PlainOrder(os[i])
    ensures ReadOrderBy(OrderText(os) + LimitText(limit)) == Some((os, LimitText(limit)))
    ensures AfterList(OrderText(os) + LimitText(limit))
  {
    hide OrderList, ReadOrders, LimitText, PlainOrder;
    LimitReads(limit);
    if os == [] {
      assert OrderText(os) + LimitText(limit) == LimitText(limit);
      assert limit > 0 ==> LimitText(limit)[1] == LimitText(limit)[..3][1] == 'L';
      NotAhead(LimitText(limit), " ORDER BY ", 1);
    } else {
      var tail := OrderList(os) + LimitText(limit);
      assert OrderText(os) + LimitText(limit) == " ORDER BY " + tail;
      ExpectReads(" ORDER BY ", tail);
      OrderListReads(os, LimitText(limit));
    }
  }

  lemma TailReads(fs: seq<FieldRef>, os: seq<OrderBy>, limit: int)
    requires forall i :: 0 <= i < |fs| ==> PlainField(fs[i])
    requires forall i :: 0 <= i < |os| ==> PlainOrder(os[i])
    ensures ReadTail(GroupText(fs) + (OrderText(os) + LimitText(limit))) == Some((fs, os, if limit > 0 then limit else 0))
  {
    hide FieldList, ReadFields, OrderText, LimitText, ReadOrderBy, ReadLimit, PlainField, PlainOrder;
    var rest := OrderText(os) + LimitText(limit);
    OrderByReads(os, limit);
    LimitReads(limit);
    if fs == [] {
      assert GroupText(fs) + rest == rest;
      NotGroupBy(os, limit);
    } else {
      var tail := FieldList(fs) + rest;
      assert GroupText(fs) + rest == " GROUP BY " + tail;
      ExpectReads(" GROUP BY ", tail);
      FieldListReads(fs, rest);
    }
  }

  lemma SecondChar(os: seq<OrderBy>, limit: int)
    ensures var rest := OrderText(os) + LimitText(limit);
            rest == "" || (|rest| > 2 && rest[0] == ' ' && ((rest[1] == 'O' && rest[2] == 'R') || (rest[1] == 'L' && rest[2] == 'I')))
  {
    hide OrderList, Decimal;
    if os == [] {
      assert OrderText(os) + LimitText(limit) == LimitText(limit);
    }
  }

  lemma NotGroupBy(os: seq<OrderBy>, limit: int)
    ensures !HasPrefix(OrderText(os) + LimitText(limit), " GROUP BY ")
  {
    hide OrderText, LimitText;
    SecondChar(os, limit);
    assert " GROUP BY "[1] == 'G';
    NotAhead(OrderText(os) + LimitText(limit), " GROUP BY ", 1);
  }

  /** No clause after the joins begins like a join. */
  lemma TailIsNoJoin(fs: seq<FieldRef>, os: seq<OrderBy>, limit: int)
    ensures var rest := GroupText(fs) + (OrderText(os) + LimitText(limit));
            JoinAhead(rest).None? && NoQuoteAhead(rest)
  {
    hide OrderText, LimitText, FieldList;
    SecondChar(os, limit);
    var rest := GroupText(fs) + (OrderText(os) + LimitText(limit));
    if fs == [] {
      assert rest == OrderText(os) + LimitText(limit);
    } else {
      assert rest[0] == ' ' && rest[1] == 'G';
    }
    NotAhead(rest, " " + JOIN_INNER + " ", 1);
    NotAhead(rest, " " + JOIN_LEFT + " ", if |rest| > 1 && rest[1] == 'L' then 2 else 1);
    NotAhead(rest, " " + JOIN_RIGHT + " ", 1);
    NotAhead(rest, " " + JOIN_FULL + " ", 1);
  }

  // ---------- The whole statement ----------

  lemma {:induction false} FieldListStartsWithQuote(fs: seq<FieldRef>)
    requires fs != [] && PlainField(fs[0])
    ensures FieldList(fs) != "" && FieldList(fs)[0] == '"'
  {
    hide Escape, AliasSuffix;
    assert Blank("");
    assert RenderField(fs[0])[0] == '"';
    hide RenderField;
    assert FieldList(fs)[0] == RenderFields(fs)[0][0];
  }

  lemma SelectReads(n: Graph, rest: string)
    requires (forall i :: 0 <= i < |n.fields| ==> PlainField(n.fields[i])) && AfterList(rest)
    ensures ReadSelect(SelectText(n) + rest) == Some((n.fields, rest))
  {
    hide FieldList, ReadFields, PlainField;
    if n.fields == [] {
      assert SelectText(n) + rest == "SELECT " + ("*" + rest);
      ExpectReads("SELECT ", "*" + rest);
      ExpectReads("*", rest);
    } else {
      var tail := FieldList(n.fields) + rest;
      assert SelectText(n) + rest == "SELECT " + tail;
      ExpectReads("SELECT ", tail);
      FieldListStartsWithQuote(n.fields);
      NotAhead(tail, "*", 0);
      FieldListReads(n.fields, rest);
    }
  }

  lemma FromReads(n: Graph, rest: string)
    requires forall i :: 0 <= i < |n.joins| ==> NormalJoin(n.joins[i])
    requires JoinAhead(rest).None? && NoQuoteAhead(rest)
    ensures ReadFrom(FromText(n) + rest) == Some(((n.from, n.joins), rest))
  {
    hide Quote, ReadQuoted, RenderJoins, ReadJoins, NormalJoin, JoinAhead;
    var joins := RenderJoins(n.joins, n.from.alias) + rest;
    var alias := Quote(n.from.alias) + joins;
    var table := Quote(n.from.table) + (" " + alias);
    FromSplits(n, rest);
    ExpectReads(" FROM ", table);
    assert (" " + alias)[0] == ' ';
    QuoteReads(n.from.table, " " + alias);
    ExpectReads(" ", alias);
    JoinsStartWithSpace(n.joins, n.from.alias, rest);
    QuoteReads(n.from.alias, joins);
    JoinsRead(n.joins, n.from.alias, rest);
  }

  lemma FromSplits(n: Graph, rest: string)
    ensures FromText(n) + rest ==
              " FROM " + (Quote(n.from.table) + (" " + (Quote(n.from.alias) + (RenderJoins(n.joins, n.from.alias) + rest))))
  {
    hide Quote, RenderJoins;
    var q, a, j := Quote(n.from.table), Quote(n.from.alias), RenderJoins(n.joins, n.from.alias);
    Assoc(" FROM " + q + " " + a, j, rest);
    Assoc(" FROM " + q + " ", a, j + rest);
    Assoc(" FROM " + q, " ", a + (j + rest));
    Assoc(" FROM ", q, " " + (a + (j + rest)));
  }

  lemma JoinsStartWithSpace(js: seq<Join>, fromAlias: string, rest: string)
    requires NoQuoteAhead(rest)
    ensures NoQuoteAhead(RenderJoins(js, fromAlias) + rest)
  {
    hide Quote, JoinOn;
    if js == [] {
      assert RenderJoins(js, fromAlias) + rest == rest;
    } else {
      assert RenderJoins(js, fromAlias)[0] == ' ';
    }
  }

  lemma PlainJoinNormalizes(j: Join)
    requires PlainJoin(j) && NormalizeJoin(j).Ok?
    ensures NormalJoin(NormalizeJoin(j).value)
  {
    hide TrimLeft, TrimRight;
  }

  lemma NormalizedJoinsAreNormal(g: Graph)
    requires PlainParts(g) && Normalize(g).Ok?
    ensures forall i :: 0 <= i < |Normalize(g).value.joins| ==> NormalJoin(Normalize(g).value.joins[i])
  {
    hide NormalizeJoins, NormalizeJoin, FieldsFault, PredicatesFault, Trim, PlainField, PlainOrder, PlainJoin, NormalJoin;
    NormalizeJoinsShape({SourceAlias(g)}, g.joins);
    var n := Normalize(g).value;
    forall i | 0 <= i < |n.joins|
      ensures NormalJoin(n.joins[i])
    {
      PlainJoinNormalizes(g.joins[i]);
    }
  }

  lemma PlainGenerates(g: Graph)
    requires Blank(g.condition) && g.predicates == []
    ensures Generate(g).Ok? <==> Normalize(g).Ok?
    ensures Generate(g).Ok? ==>
              var n := Normalize(g).value;
              && n == g.(from := n.from, joins := n.joins)
              && Generate(g).value.sql ==
                   SelectText(n) + (FromText(n) + (GroupText(n.groupBy) + (OrderText(n.orderBy) + LimitText(n.limit))))
              && Generate(g).value.parameters == []
  {
    hide SelectText, FromText, FieldList, OrderList, Decimal, NormalizeJoins, FieldsFault, PredicatesFault, Trim;
    if Normalize(g).Ok? {
      var n := Normalize(g).value;
      var a, b, c, d, e := SelectText(n), FromText(n), GroupText(n.groupBy), OrderText(n.orderBy), LimitText(n.limit);
      assert TailText(n) == c + d + e;
      assert a + b + "" == a + b;
      Assoc(c, d, e);
      Assoc(a, b, c + (d + e));
    }
  }

  /** Reading the SQL printed for a plain graph gives back everything that was printed. */
  lemma PrintedGraphReadsBack(g: Graph)
    requires Plain(g) && Generate(g).Ok?
    ensures ReadQuery(Generate(g).value.sql) == Some(SkeletonOf(Normalize(g).value))
  {
    hide Generate, Normalize, SelectText, FromText, GroupText, OrderText, LimitText, ReadSelect, ReadFrom, ReadTail,
         PlainField, PlainOrder, PlainJoin, NormalJoin, JoinAhead, Blank;
    PlainGenerates(g);
    NormalizedJoinsAreNormal(g);
    var n := Normalize(g).value;
    var tail := GroupText(n.groupBy) + (OrderText(n.orderBy) + LimitText(n.limit));
    TailReads(n.groupBy, n.orderBy, n.limit);
    TailIsNoJoin(n.groupBy, n.orderBy, n.limit);
    FromReads(n, tail);
    FromStartsClause(n, tail);
    SelectReads(n, FromText(n) + tail);
  }

  lemma FromStartsClause(n: Graph, rest: string)
    ensures AfterList(FromText(n) + rest)
  {
    hide Quote, RenderJoins;
    assert (FromText(n) + rest)[0] == ' ' && (FromText(n) + rest)[1] == 'F';
  }

  /** Two plain graphs print alike only when they normalise to the same query. */
  lemma PrintingIsInjective(g: Graph, h: Graph)
    requires Plain(g) && Plain(h) && Generate(g).Ok? && Generate(h).Ok?
    requires Generate(g).value.sql == Generate(h).value.sql
    ensures SkeletonOf(Normalize(g).value) == SkeletonOf(Normalize(h).value)
  {
    hide Generate, Normalize, ReadQuery, Plain;
    PrintedGraphReadsBack(g);
    PrintedGraphReadsBack(h);
  }
}
