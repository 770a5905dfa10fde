/**
  What structured predicates mean, in Kleene's three-valued logic, and what the clause
  printed for them means when its placeholders are bound left to right. The two agree.
 */
module Predicates {
  import opened Results
  import opened Text
  import opened Values
  import opened QueryGraph
  import opened Sql
  import opened SqlReader

  datatype Tri = True | False | Unknown

  function Not3(a: Tri): Tri {
    match a
    case True => False
    case False => True
    case Unknown => Unknown
  }

  function And3(a: Tri, b: Tri): Tri {
    if a == False || b == False then False
    else if a == True && b == True then True
    else Unknown
  }

  function Or3(a: Tri, b: Tri): Tri {
    Not3(And3(Not3(a), Not3(b)))
  }

  function Truth(b: bool): Tri {
    if b then True else False
  }

  /** A comparison with NULL on either side is unknown. */
  function Compare(op: Operator, a: Value, b: Value): Tri
    requires op.Eq? || op.Neq? || op.Gt? || op.Gte? || op.Lt? || op.Lte?
  {
    if a.Null? || b.Null? then Unknown
    else
      match op
      case Eq => Truth(a == b)
      case Neq => Truth(a != b)
      case Gt => Truth(ValueLess(b, a))
      case Gte => Truth(ValueLess(b, a) || a == b)
      case Lt => Truth(ValueLess(a, b))
      case Lte => Truth(ValueLess(a, b) || a == b)
  }

  /** a = v1 OR a = v2 OR ... */
  function In3(a: Value, values: seq<Value>): Tri {
    if values == [] then False else Or3(Compare(Eq, a, values[0]), In3(a, values[1..]))
  }

  /** LIKE: "%" stands for any text, "_" for any one character. */
  predicate LikeMatch(t: string, p: string)
    decreases |t| + |p|
  {
    if p == "" then t == ""
    else if p[0] == '%' then LikeMatch(t, p[1..]) || (t != "" && LikeMatch(t[1..], p))
    else if p[0] == '_' then t != "" && LikeMatch(t[1..], p[1..])
    else t != "" && t[0] == p[0] && LikeMatch(t[1..], p[1..])
  }

  function Like3(a: Value, pattern: Value): Tri {
    if a.Null? || pattern.Null? then Unknown else Truth(LikeMatch(Format(a), Format(pattern)))
  }

  /** LIKE and CONTAINS look for the value anywhere in the operand; with a NULL value they are unknown. */
  function Containing3(a: Value, v: Value): Tri {
    if v.Null? then Unknown else Like3(a, Wildcard(v))
  }

  // ---------- The meaning of a predicate ----------

  /** The operator is known and has the number of values it needs. */
  predicate Complete(p: Predicate) {
    match p.operator
    case Other(_) => false
    case IsNull | NotNull => |p.values| == 0
    case In => |p.values| > 0
    case _ => |p.values| == 1
  }

  function Plain3(p: Predicate, a: Value): Tri
    requires Complete(p)
  {
    match p.operator
    case IsNull => Truth(a.Null?)
    case NotNull => Truth(!a.Null?)
    case In => In3(a, p.values)
    case Contains | Like => Containing3(a, p.values[0])
    case _ => Compare(p.operator, a, p.values[0])
  }

  /** The predicate under a row, with Not as three-valued negation. */
  function Meaning(p: Predicate, row: (string, string) -> Value): Tri
    requires Complete(p)
  {
    var t := Plain3(p, row(p.field.source, p.field.column));
    if p.negated then Not3(t) else t
  }

  function AllHold(ps: seq<Predicate>, row: (string, string) -> Value): Tri
    requires forall i :: 0 <= i < |ps| ==> Complete(ps[i])
  {
    if ps == [] then True else And3(Meaning(ps[0], row), AllHold(ps[1..], row))
  }

  /** LIKE or CONTAINS with a NULL value, which is printed as the text "<nil>". */
  predicate NullPattern(p: Predicate) {
    (p.operator.Like? || p.operator.Contains?) && |p.values| == 1 && p.values[0].Null?
  }

  /** What is printed for the predicate: its meaning, except that a NULL pattern is searched for as text. */
  function Printed(p: Predicate, row: (string, string) -> Value): Tri
    requires Complete(p)
  {
    if NullPattern(p) then
      var t := Like3(row(p.field.source, p.field.column), Wildcard(p.values[0]));
      if p.negated then Not3(t) else t
    else Meaning(p, row)
  }

  function AllPrinted(ps: seq<Predicate>, row: (string, string) -> Value): Tri
    requires forall i :: 0 <= i < |ps| ==> Complete(ps[i])
  {
    if ps == [] then True else And3(Printed(ps[0], row), AllPrinted(ps[1..], row))
  }

  lemma {:induction false} PrintedIsMeant(ps: seq<Predicate>, row: (string, string) -> Value)
    requires forall i :: 0 <= i < |ps| ==> Complete(ps[i])
    requires forall i :: 0 <= i < |ps| ==> !NullPattern(ps[i])
    ensures AllPrinted(ps, row) == AllHold(ps, row)
  {
    hide Complete, NullPattern, Meaning;
    if ps != [] {
      PrintedIsMeant(ps[1..], row);
    }
  }

  // ---------- The meaning of printed text ----------

  /** One or more placeholders up to a closing parenthesis. */
  function ReadPlaceholders(s: string): (r: Option<(nat, string)>)
    ensures r.Some? ==> |r.value.1| < |s|
  {
    if !HasPrefix(s, "?") then None
    else if HasPrefix(s[1..], ")") then Some((1, s[2..]))
    else if HasPrefix(s[1..], ", ") then
      match ReadPlaceholders(s[3..])
      case None => None
      case Some((n, rest)) => Some((n + 1, rest))
    else None
  }

  /** The comparison at the front of the text. */
  function ComparisonAhead(s: string): Option<Operator> {
    if HasPrefix(s, " = ?") then Some(Eq)
    else if HasPrefix(s, " != ?") then Some(Neq)
    else if HasPrefix(s, " >= ?") then Some(Gte)
    else if HasPrefix(s, " > ?") then Some(Gt)
    else if HasPrefix(s, " <= ?") then Some(Lte)
    else if HasPrefix(s, " < ?") then Some(Lt)
    else None
  }

  type Outcome = Option<(Tri, string, seq<Value>)>

  function EvalIn(a: Value, negated: bool, s: string, args: seq<Value>): Outcome {
    match ReadPlaceholders(s)
    case None => None
    case Some((n, rest)) =>
      if |args| < n then None
      else Some((if negated then Not3(In3(a, args[..n])) else In3(a, args[..n]), rest, args[n..]))
  }

  function EvalLike(a: Value, negated: bool, s: string, args: seq<Value>): Outcome {
    if args == [] then None
    else Some((if negated then Not3(Like3(a, args[0])) else Like3(a, args[0]), s, args[1..]))
  }

  function EvalTest(a: Value, s: string, args: seq<Value>): Outcome {
    if HasPrefix(s, " IS NULL") then Some((Truth(a.Null?), s[8..], args))
    else if HasPrefix(s, " IS NOT NULL") then Some((Truth(!a.Null?), s[12..], args))
    else if HasPrefix(s, " IN (") then EvalIn(a, false, s[5..], args)
    else if HasPrefix(s, " NOT IN (") then EvalIn(a, true, s[9..], args)
    else if HasPrefix(s, " LIKE ?") then EvalLike(a, false, s[7..], args)
    else if HasPrefix(s, " NOT LIKE ?") then EvalLike(a, true, s[11..], args)
    else
      match ComparisonAhead(s)
      case None => None
      case Some(op) =>
        if args == [] then None
        else Some((Compare(op, a, args[0]), s[|" " + OperatorText(op) + " ?"|..], args[1..]))
  }

  /** One condition at the front of the text, with the arguments its placeholders take. */
  function EvalCondition(s: string, args: seq<Value>, row: (string, string) -> Value): Outcome {
    match ReadColumn(s)
    case None => None
    case Some(((source, column), rest)) => EvalTest(row(source, column), rest, args)
  }

  /** The conjunction at the front of the text, with the arguments its placeholders take. */
  function EvalConjunction(s: string, args: seq<Value>, row: (string, string) -> Value): Outcome
    decreases |s|
  {
    match EvalCondition(s, args, row)
    case None => None
    case Some((t, rest, args)) =>
      if HasPrefix(rest, " AND ") && |rest| - 5 < |s| then
        match EvalConjunction(rest[5..], args, row)
        case None => None
        case Some((more, rest, args)) => Some((And3(t, more), rest, args))
      else Some((t, rest, args))
  }

  /** A conjunction that is the whole text and takes exactly the given arguments. */
  function EvalClause(s: string, args: seq<Value>, row: (string, string) -> Value): Option<Tri> {
    match EvalConjunction(s, args, row)
    case None => None
    case Some((t, rest, args)) => if rest == "" && args == [] then Some(t) else None
  }

  // ---------- Negating the operator negates the meaning ----------

  lemma NegatedComparison(op: Operator, a: Value, b: Value)
    requires op.Eq? || op.Neq? || op.Gt? || op.Gte? || op.Lt? || op.Lte?
    ensures Compare(ApplyNot(op, true).value.0, a, b) == Not3(Compare(op, a, b))
  {
    hide ValueLess;
    if !a.Null? && !b.Null? {
      ValueTrichotomy(a, b);
    }
  }

  // ---------- Reading one condition ----------

  lemma {:induction false} PlaceholdersRead(n: nat, rest: string)
    requires n > 0
    ensures ReadPlaceholders(JoinStrings(Placeholders(n), ", ") + (")" + rest)) == Some((n, rest))
  {
    var s := JoinStrings(Placeholders(n), ", ") + (")" + rest);
    if n == 1 {
      assert s == "?" + (")" + rest);
      ExpectReads("?", ")" + rest);
      ExpectReads(")", rest);
      assert s[2..] == rest;
    } else {
      assert Placeholders(n)[1..] == Placeholders(n - 1);
      var tail := JoinStrings(Placeholders(n - 1), ", ") + (")" + rest);
      assert s == "?" + (", " + tail);
      ExpectReads("?", ", " + tail);
      ExpectReads(", ", tail);
      NotAhead(", " + tail, ")", 0);
      PlaceholdersRead(n - 1, rest);
      assert s[3..] == tail;
    }
  }

  // The keywords differ in their second, third or sixth character.
  lemma KeywordsDiffer(s: string)
    requires |s| > 5
    ensures s[1] != 'I' ==> !HasPrefix(s, " IS NULL") && !HasPrefix(s, " IS NOT NULL") && !HasPrefix(s, " IN (")
    ensures s[1] == 'I' && s[2] != 'S' ==> !HasPrefix(s, " IS NULL") && !HasPrefix(s, " IS NOT NULL")
    ensures s[4] != 'U' && s[5] != 'U' ==> !HasPrefix(s, " IS NULL")
    ensures s[1] != 'N' ==> !HasPrefix(s, " NOT IN (") && !HasPrefix(s, " NOT LIKE ?")
    ensures s[5] != 'I' ==> !HasPrefix(s, " NOT IN (")
    ensures s[1] != 'L' ==> !HasPrefix(s, " LIKE ?")
  {
    if s[1] != 'I' {
      NotAhead(s, " IS NULL", 1);
      NotAhead(s, " IS NOT NULL", 1);
      NotAhead(s, " IN (", 1);
    }
    if s[2] != 'S' {
      NotAhead(s, " IS NULL", 2);
      NotAhead(s, " IS NOT NULL", 2);
    }
    if s[5] != 'U' {
      NotAhead(s, " IS NULL", 5);
    }
    if s[1] != 'N' {
      NotAhead(s, " NOT IN (", 1);
      NotAhead(s, " NOT LIKE ?", 1);
    }
    if s[5] != 'I' {
      NotAhead(s, " NOT IN (", 5);
    }
    if s[1] != 'L' {
      NotAhead(s, " LIKE ?", 1);
    }
  }

  lemma NullTestReads(a: Value, rest: string, args: seq<Value>)
    ensures EvalTest(a, " IS NULL" + rest, args) == Some((Truth(a.Null?), rest, args))
    ensures EvalTest(a, " IS NOT NULL" + rest, args) == Some((Truth(!a.Null?), rest, args))
  {
    ExpectReads(" IS NULL", rest);
    ExpectReads(" IS NOT NULL", rest);
    NotAhead(" IS NOT NULL" + rest, " IS NULL", 5);
  }

  lemma InReads(a: Value, negated: bool, values: seq<Value>, rest: string, more: seq<Value>)
    requires values != []
    ensures EvalTest(a, (if negated then " NOT IN (" else " IN (") + (JoinStrings(Placeholders(|values|), ", ") + (")" + rest)), values + more)
              == Some((if negated then Not3(In3(a, values)) else In3(a, values), rest, more))
  {
    hide In3, JoinStrings, ReadPlaceholders;
    var tail := JoinStrings(Placeholders(|values|), ", ") + (")" + rest);
    PlaceholdersRead(|values|, rest);
    assert (values + more)[..|values|] == values && (values + more)[|values|..] == more;
    if negated {
      ExpectReads(" NOT IN (", tail);
      KeywordsDiffer(" NOT IN (" + tail);
    } else {
      ExpectReads(" IN (", tail);
      NotAhead(" IN (" + tail, " IS NULL", 2);
      NotAhead(" IN (" + tail, " IS NOT NULL", 2);
    }
  }

  lemma LikeReads(a: Value, negated: bool, pattern: Value, rest: string, more: seq<Value>)
    ensures EvalTest(a, (if negated then " NOT LIKE ?" else " LIKE ?") + rest, [pattern] + more)
              == Some((if negated then Not3(Like3(a, pattern)) else Like3(a, pattern), rest, more))
  {
    hide Like3;
    assert ([pattern] + more)[1..] == more;
    if negated {
      ExpectReads(" NOT LIKE ?", rest);
      KeywordsDiffer(" NOT LIKE ?" + rest);
    } else {
      ExpectReads(" LIKE ?", rest);
      KeywordsDiffer(" LIKE ?" + rest);
    }
  }

  lemma ComparisonAheadOf(op: Operator, rest: string)
    requires op.Eq? || op.Neq? || op.Gt? || op.Gte? || op.Lt? || op.Lte?
    ensures ComparisonAhead(" " + OperatorText(op) + " ?" + rest) == Some(op)
  {
    var s := " " + OperatorText(op) + " ?" + rest;
    ExpectReads(" " + OperatorText(op) + " ?", rest);
    assert s[1] == OperatorText(op)[0];
    if !op.Eq? {
      NotAhead(s, " = ?", 1);
      if !op.Neq? {
        NotAhead(s, " != ?", 1);
        if !op.Gte? {
          assert op.Gt? ==> s[2] == ' ';
          NotAhead(s, " >= ?", if op.Gt? then 2 else 1);
          if !op.Gt? {
            NotAhead(s, " > ?", 1);
            if !op.Lte? {
              assert s[2] == ' ';
              NotAhead(s, " <= ?", 2);
            }
          }
        }
      }
    }
  }

  lemma ComparisonReads(op: Operator, a: Value, b: Value, rest: string, more: seq<Value>)
    requires op.Eq? || op.Neq? || op.Gt? || op.Gte? || op.Lt? || op.Lte?
    ensures EvalTest(a, " " + OperatorText(op) + " ?" + rest, [b] + more) == Some((Compare(op, a, b), rest, more))
  {
    hide Compare, ComparisonAhead;
    var s := " " + OperatorText(op) + " ?" + rest;
    ComparisonAheadOf(op, rest);
    ExpectReads(" " + OperatorText(op) + " ?", rest);
    assert ([b] + more)[1..] == more;
    assert s[1] == OperatorText(op)[0];
    NotAhead(s, " IS NULL", 1);
    NotAhead(s, " IS NOT NULL", 1);
    NotAhead(s, " IN (", 1);
    NotAhead(s, " NOT IN (", 1);
    NotAhead(s, " LIKE ?", 1);
    NotAhead(s, " NOT LIKE ?", 1);
  }

  // ---------- One predicate ----------

  /** A predicate on a named column, with the values its operator needs. */
  predicate Printable(p: Predicate) {
    Structured(p) && p.field.source != "" && p.field.column != "" && p.field.column != "*" && Complete(p)
  }

  lemma PrintableRenders(p: Predicate)
    requires Printable(p)
    ensures RenderPredicate(p).Ok?
    ensures var op := ApplyNot(p.operator, p.negated).value.0;
            var prefix := if p.negated then "NOT " else "";
            var field := Column(p.field.source, p.field.column);
            match p.operator
            case IsNull | NotNull => RenderPredicate(p).value == (field + " " + OperatorText(op), [])
            case In =>
              RenderPredicate(p).value ==
                (field + " " + prefix + "IN (" + JoinStrings(Placeholders(|p.values|), ", ") + ")", p.values)
            case Contains | Like => RenderPredicate(p).value == (field + " " + prefix + "LIKE ?", [Wildcard(p.values[0])])
            case _ => RenderPredicate(p).value == (field + " " + OperatorText(op) + " ?", p.values)
  {
    hide Column, JoinStrings, Format, Trim;
  }

  // The column in front of a test is read, and the test applied to its value.
  lemma TestAfterColumn(p: Predicate, test: string, rest: string, args: seq<Value>, row: (string, string) -> Value)
    requires test != "" && test[0] == ' '
    ensures EvalCondition(Column(p.field.source, p.field.column) + test + rest, args, row)
              == EvalTest(row(p.field.source, p.field.column), test + rest, args)
  {
    hide Column, ReadColumn, EvalTest;
    Assoc(Column(p.field.source, p.field.column), test, rest);
    ColumnReads(p.field.source, p.field.column, test + rest);
  }

  lemma NullConditionReads(p: Predicate, rest: string, more: seq<Value>, row: (string, string) -> Value)
    requires Printable(p) && (p.operator.IsNull? || p.operator.NotNull?)
    ensures RenderPredicate(p).Ok?
    ensures EvalCondition(RenderPredicate(p).value.0 + rest, RenderPredicate(p).value.1 + more, row)
              == Some((Meaning(p, row), rest, more))
  {
    hide Column, EvalCondition, EvalTest, RenderPredicate;
    PrintableRenders(p);
    var test := if p.operator.IsNull? == p.negated then " IS NOT NULL" else " IS NULL";
    assert RenderPredicate(p).value.0 == Column(p.field.source, p.field.column) + test;
    TestAfterColumn(p, test, rest, more, row);
    NullTestReads(row(p.field.source, p.field.column), rest, more);
    assert [] + more == more;
  }

  lemma InConditionReads(p: Predicate, rest: string, more: seq<Value>, row: (string, string) -> Value)
    requires Printable(p) && p.operator.In?
    ensures RenderPredicate(p).Ok?
    ensures EvalCondition(RenderPredicate(p).value.0 + rest, RenderPredicate(p).value.1 + more, row)
              == Some((Meaning(p, row), rest, more))
  {
    hide Column, EvalCondition, EvalTest, RenderPredicate, JoinStrings, In3;
    PrintableRenders(p);
    var field := Column(p.field.source, p.field.column);
    var test := if p.negated then " NOT IN (" else " IN (";
    var places := JoinStrings(Placeholders(|p.values|), ", ");
    assert RenderPredicate(p).value.0 + rest == field + (test + (places + (")" + rest)));
    Assoc(field, test, places + (")" + rest));
    TestAfterColumn(p, test, places + (")" + rest), p.values + more, row);
    InReads(row(p.field.source, p.field.column), p.negated, p.values, rest, more);
  }

  lemma LikeConditionReads(p: Predicate, rest: string, more: seq<Value>, row: (string, string) -> Value)
    requires Printable(p) && (p.operator.Like? || p.operator.Contains?)
    ensures RenderPredicate(p).Ok?
    ensures var t := Like3(row(p.field.source, p.field.column), Wildcard(p.values[0]));
            EvalCondition(RenderPredicate(p).value.0 + rest, RenderPredicate(p).value.1 + more, row)
              == Some((if p.negated then Not3(t) else t, rest, more))
  {
    hide Column, EvalCondition, EvalTest, RenderPredicate, Like3, Wildcard;
    PrintableRenders(p);
    var test := if p.negated then " NOT LIKE ?" else " LIKE ?";
    assert RenderPredicate(p).value.0 == Column(p.field.source, p.field.column) + test;
    TestAfterColumn(p, test, rest, [Wildcard(p.values[0])] + more, row);
    LikeReads(row(p.field.source, p.field.column), p.negated, Wildcard(p.values[0]), rest, more);
  }

  lemma ComparisonConditionReads(p: Predicate, rest: string, more: seq<Value>, row: (string, string) -> Value)
    requires Printable(p)
    requires p.operator.Eq? || p.operator.Neq? || p.operator.Gt? || p.operator.Gte? || p.operator.Lt? || p.operator.Lte?
    ensures RenderPredicate(p).Ok?
    ensures EvalCondition(RenderPredicate(p).value.0 + rest, RenderPredicate(p).value.1 + more, row)
              == Some((Meaning(p, row), rest, more))
  {
    hide Column, EvalCondition, EvalTest, RenderPredicate, Compare;
    PrintableRenders(p);
    var a := row(p.field.source, p.field.column);
    var op := ApplyNot(p.operator, p.negated).value.0;
    var test := " " + OperatorText(op) + " ?";
    assert RenderPredicate(p).value.0 == Column(p.field.source, p.field.column) + test;
    assert p.values == [p.values[0]];
    TestAfterColumn(p, test, rest, [p.values[0]] + more, row);
    ComparisonReads(op, a, p.values[0], rest, more);
    NegatedComparison(p.operator, a, p.values[0]);
  }

  /** One printed condition reads as what is printed for its predicate, and takes exactly its arguments. */
  lemma ConditionReads(p: Predicate, rest: string, more: seq<Value>, row: (string, string) -> Value)
    requires Printable(p)
    ensures RenderPredicate(p).Ok?
    ensures EvalCondition(RenderPredicate(p).value.0 + rest, RenderPredicate(p).value.1 + more, row)
              == Some((Printed(p, row), rest, more))
  {
    hide EvalCondition, RenderPredicate, Compare, In3, Like3;
    match p.operator
    case IsNull | NotNull => NullConditionReads(p, rest, more, row);
    case In => InConditionReads(p, rest, more, row);
    case Contains | Like => LikeConditionReads(p, rest, more, row);
    case _ => ComparisonConditionReads(p, rest, more, row);
  }

  // ---------- The whole clause ----------

  /** The printed conditions read as the conjunction of what is printed, whatever text and arguments follow. */
  lemma {:induction false} ConjunctionReads(ps: seq<Predicate>, rest: string, more: seq<Value>, row: (string, string) -> Value)
    requires ps != [] && !HasPrefix(rest, " AND ")
    requires forall i :: 0 <= i < |ps| ==> Complete(ps[i])
    requires forall i :: 0 <= i < |ps| ==> Printable(ps[i])
    ensures RenderConditions(ps).Ok? && |RenderConditions(ps).value.0| == |ps|
    ensures EvalConjunction(JoinStrings(RenderConditions(ps).value.0, " AND ") + rest, RenderConditions(ps).value.1 + more, row)
              == Some((AllPrinted(ps, row), rest, more))
  {
    hide RenderPredicate, EvalCondition, Printed, Structured, Complete, NullPattern, And3;
    var p := ps[0];
    var others := ps[1..];
    if others == [] {
      ConditionReads(p, rest, more, row);
      var (part, args) := RenderPredicate(p).value;
      assert RenderConditions(others) == Ok(([], []));
      assert RenderConditions(ps).value == ([part] + [], args + []);
      assert args + [] == args;
      assert AllPrinted(others, row) == True;
      NeutralTrue(Printed(p, row));
    } else {
      ConjunctionReads(others, rest, more, row);
      var (parts, otherArgs) := RenderConditions(others).value;
      var clause := JoinStrings(parts, " AND ");
      ConditionReads(p, " AND " + (clause + rest), otherArgs + more, row);
      var (part, args) := RenderPredicate(p).value;
      assert RenderConditions(ps).value == ([part] + parts, args + otherArgs);
      assert ([part] + parts)[1..] == parts;
      assert JoinStrings([part] + parts, " AND ") == part + " AND " + clause;
      Assoc(part + " AND ", clause, rest);
      Assoc(part, " AND ", clause + rest);
      assert args + otherArgs + more == args + (otherArgs + more);
      ExpectReads(" AND ", clause + rest);
      PartNotEmpty(p);
      assert |" AND " + (clause + rest)| - 5 < |part + (" AND " + (clause + rest))|;
    }
  }

  lemma NeutralTrue(t: Tri)
    ensures And3(t, True) == t
  {
  }

  lemma ConditionCompletes(ps: seq<Predicate>)
    requires forall i :: 0 <= i < |ps| ==> Printable(ps[i])
    ensures forall i :: 0 <= i < |ps| ==> Complete(ps[i])
  {
    hide Complete, Structured;
  }

  lemma PartNotEmpty(p: Predicate)
    requires Printable(p)
    ensures RenderPredicate(p).Ok? && RenderPredicate(p).value.0 != ""
  {
    hide Printable, JoinStrings, RenderPredicate, Format, Wildcard, Escape;
    PrintableRenders(p);
    assert Column(p.field.source, p.field.column) != "";
    hide Column;
  }

  /** A structured predicate that NormalizeGraph accepts has a named source and its values, and printing it cannot fail. */
  lemma AcceptedIsPrintable(declared: set<string>, p: Predicate)
    requires Structured(p) && p.field.column != "*"
    requires PredicateFault(declared, p).None?
    ensures Printable(p) && p.field.source in declared && RenderPredicate(p).Ok?
  {
    hide Blank, RenderPredicate;
    PrintableRenders(p);
  }

  /**
    For a graph that NormalizeGraph accepts, all of whose predicates are structured,
    printing never fails, and the WHERE clause, with its parameters bound left to right,
    takes exactly these parameters and reads under every row as the three-valued
    conjunction of what is printed; without NULL patterns, of the predicates themselves.
   */
  lemma WhereClauseMeaning(g: Graph, row: (string, string) -> Value)
    requires Normalize(g).Ok? && g.predicates != []
    requires forall i :: 0 <= i < |g.predicates| ==> Structured(g.predicates[i]) && g.predicates[i].field.column != "*"
    ensures forall i :: 0 <= i < |g.predicates| ==> Complete(g.predicates[i])
    ensures Conditions(g.predicates).Ok? && Generate(g).Ok?
    ensures WhereText(Normalize(g).value) == Ok(QuerySQL(" WHERE " + Conditions(g.predicates).value.sql, Generate(g).value.parameters))
    ensures EvalClause(Conditions(g.predicates).value.sql, Generate(g).value.parameters, row) == Some(AllPrinted(g.predicates, row))
    ensures (forall i :: 0 <= i < |g.predicates| ==> !NullPattern(g.predicates[i])) ==>
              AllPrinted(g.predicates, row) == AllHold(g.predicates, row)
  {
    hide NormalizeJoins, FieldsFault, Structured, PredicateFault, SelectText, FromText, TailText, EvalConjunction, RenderConditions,
         JoinStrings, Blank, NullPattern, Printable, Complete, Printed, Meaning;
    AcceptedArePrintable(g);
    ConjunctionReads(g.predicates, "", [], row);
    var (parts, args) := RenderConditions(g.predicates).value;
    assert JoinStrings(parts, " AND ") + "" == JoinStrings(parts, " AND ") && args + [] == args;
    if forall i :: 0 <= i < |g.predicates| ==> !NullPattern(g.predicates[i]) {
      PrintedIsMeant(g.predicates, row);
    }
  }

  lemma AcceptedArePrintable(g: Graph)
    requires Normalize(g).Ok?
    requires forall i :: 0 <= i < |g.predicates| ==> Structured(g.predicates[i]) && g.predicates[i].field.column != "*"
    ensures forall i :: 0 <= i < |g.predicates| ==> Printable(g.predicates[i])
    ensures forall i :: 0 <= i < |g.predicates| ==> Complete(g.predicates[i])
  {
    hide NormalizeJoins, FieldsFault, Structured, PredicateFault, Printable, Complete;
    forall i | 0 <= i < |g.predicates|
      ensures Printable(g.predicates[i])
    {
      AcceptedIsPrintable(Declared(g), g.predicates[i]);
    }
    ConditionCompletes(g.predicates);
  }

  /** The one case the printer gets wrong: a NULL value of LIKE or CONTAINS. Everything else means what it should. */
  lemma ConditionMeansPredicateIff(p: Predicate)
    requires Printable(p)
    ensures RenderPredicate(p).Ok?
    ensures (forall row: (string, string) -> Value ::
               EvalCondition(RenderPredicate(p).value.0 + "", RenderPredicate(p).value.1 + [], row) == Some((Meaning(p, row), "", [])))
            <==> !NullPattern(p)
  {
    hide RenderPredicate, EvalCondition;
    PrintableRenders(p);
    if !NullPattern(p) {
      forall row: (string, string) -> Value
        ensures EvalCondition(RenderPredicate(p).value.0 + "", RenderPredicate(p).value.1 + [], row) == Some((Meaning(p, row), "", []))
      {
        ConditionReads(p, "", [], row);
      }
    } else {
      var row: (string, string) -> Value := (s, c) => Str("");
      NullPatternIsText(p, row);
      assert Meaning(p, row) == Unknown;
    }
  }

  lemma NullPatternIsText(p: Predicate, row: (string, string) -> Value)
    requires Printable(p) && NullPattern(p) && !row(p.field.source, p.field.column).Null?
    ensures RenderPredicate(p).Ok?
    ensures var r := EvalCondition(RenderPredicate(p).value.0 + "", RenderPredicate(p).value.1 + [], row);
            r.Some? && r.value.0 != Unknown
  {
    hide Column, ReadColumn, EvalTest, RenderPredicate, LikeMatch, Format;
    PrintableRenders(p);
    var a := row(p.field.source, p.field.column);
    var field := Column(p.field.source, p.field.column);
    var test := if p.negated then " NOT LIKE ?" else " LIKE ?";
    assert RenderPredicate(p).value.0 == field + test;
    Assoc(field, test, "");
    ColumnReads(p.field.source, p.field.column, test + "");
    LikeReads(a, p.negated, Wildcard(p.values[0]), "", []);
  }

  const NULL_PATTERN := Predicate("", FieldRef("", "", "t", "c"), Like, [Null], false)

  /** Counterexample: LIKE with a NULL value is printed, and on a text it reads as true or false instead of unknown. */
  lemma NullPatternIsNotUnknown(row: (string, string) -> Value)
    requires row("t", "c") == Str("")
    ensures Printable(NULL_PATTERN) && RenderPredicate(NULL_PATTERN).Ok? && Meaning(NULL_PATTERN, row) == Unknown
    ensures var r := EvalCondition(RenderPredicate(NULL_PATTERN).value.0 + "", RenderPredicate(NULL_PATTERN).value.1 + [], row);
            r.Some? && r.value.0 != Unknown
  {
    hide EvalCondition, RenderPredicate, LikeMatch, Format;
    assert Blank("");
    NullPatternIsText(NULL_PATTERN, row);
  }

  // ---------- CONTAINS and substrings ----------

  predicate WildcardFree(v: string) {
    forall i :: 0 <= i < |v| ==> v[i] != '%' && v[i] != '_'
  }

  predicate Substring(v: string, t: string) {
    exists i :: 0 <= i <= |t| && HasPrefix(t[i..], v)
  }

  lemma {:induction false} PercentMatchesAll(t: string)
    ensures LikeMatch(t, "%")
  {
    if t != "" {
      PercentMatchesAll(t[1..]);
    }
  }

  lemma {:induction false} LiteralThenAny(t: string, v: string)
    requires WildcardFree(v)
    ensures LikeMatch(t, v + "%") <==> HasPrefix(t, v)
  {
    if v == "" {
      assert v + "%" == "%";
      PercentMatchesAll(t);
    } else {
      assert (v + "%")[1..] == v[1..] + "%";
      if t != "" {
        LiteralThenAny(t[1..], v[1..]);
        if HasPrefix(t, v) {
          assert t[..|v|][1..] == t[1..][..|v| - 1];
          assert t[..|v|][0] == t[0];
        }
        if t[0] == v[0] && HasPrefix(t[1..], v[1..]) {
          assert t[..|v|] == [t[0]] + t[1..][..|v| - 1];
          assert v == [v[0]] + v[1..];
        }
      }
    }
  }

  lemma {:induction false} AnyThenLiteral(t: string, v: string)
    requires WildcardFree(v)
    ensures LikeMatch(t, "%" + (v + "%")) <==> Substring(v, t)
  {
    var p := "%" + (v + "%");
    assert p[1..] == v + "%";
    LiteralThenAny(t, v);
    assert t[0..] == t;
    if t != "" {
      AnyThenLiteral(t[1..], v);
      if Substring(v, t[1..]) {
        var i :| 0 <= i <= |t[1..]| && HasPrefix(t[1..][i..], v);
        assert t[1..][i..] == t[i + 1..];
      }
      if Substring(v, t) {
        var i :| 0 <= i <= |t| && HasPrefix(t[i..], v);
        if i > 0 {
          assert t[1..][i - 1..] == t[i..];
        }
      }
    }
  }

  /** A text that the pattern matches: every "%" dropped, every "_" made an "a". */
  function Instance(v: string): string {
    if v == "" then ""
    else if v[0] == '%' then Instance(v[1..])
    else if v[0] == '_' then "a" + Instance(v[1..])
    else [v[0]] + Instance(v[1..])
  }

  lemma {:induction false} InstanceMatches(v: string)
    ensures LikeMatch(Instance(v), v + "%")
    ensures |Instance(v)| <= |v|
    ensures !WildcardFree(v) ==> Instance(v) != v
  {
    if v == "" {
      assert v + "%" == "%";
      PercentMatchesAll("");
    } else {
      InstanceMatches(v[1..]);
      assert (v + "%")[1..] == v[1..] + "%";
      assert v == [v[0]] + v[1..];
      if v[0] == '%' {
        assert |Instance(v)| < |v|;
      } else if v[0] == '_' {
        assert Instance(v)[0] != v[0];
        assert Instance(v)[1..] == Instance(v[1..]);
      } else {
        assert Instance(v)[1..] == Instance(v[1..]);
        if !WildcardFree(v) {
          assert !WildcardFree(v[1..]);
        }
      }
    }
  }

  /** Looking for a value with LIKE finds exactly the texts that contain it, if and only if it has no wildcard. */
  lemma ContainsIsSubstringIff(v: string)
    ensures (forall t :: LikeMatch(t, "%" + (v + "%")) <==> Substring(v, t)) <==> WildcardFree(v)
  {
    if WildcardFree(v) {
      forall t
        ensures LikeMatch(t, "%" + (v + "%")) <==> Substring(v, t)
      {
        AnyThenLiteral(t, v);
      }
    } else {
      var t := Instance(v);
      InstanceMatches(v);
      assert ("%" + (v + "%"))[1..] == v + "%";
      assert LikeMatch(t, "%" + (v + "%"));
      assert !Substring(v, t) by {
        forall i | 0 <= i <= |t|
          ensures !HasPrefix(t[i..], v)
        {
          if |t[i..]| == |v| {
            assert t[i..] == t && t[i..][..|v|] == t;
          }
        }
      }
    }
  }

  /** Counterexample: looking for "%" finds the text "x", which does not contain it. */
  lemma PercentFindsEverything()
    ensures LikeMatch("x", "%" + ("%" + "%")) && !Substring("%", "x")
  {
    assert ("%" + ("%" + "%"))[1..] == "%" + "%";
    assert ("%" + "%")[1..] == "%";
    PercentMatchesAll("x");
    forall i | 0 <= i <= 1
      ensures !HasPrefix("x"[i..], "%")
    {
      if i == 0 {
        assert "x"[0..] == "x";
      }
    }
  }
}
