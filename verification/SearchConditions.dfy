/**
  What LIKE and CONTAINS find, said without the pattern that is bound: the rows whose text
  contains the given text. Integers count as the digits that read back as them.
 */
module SearchConditions {
  import opened Results
  import opened Text
  import opened Values
  import opened QueryGraph
  import opened Sql
  import opened SqlReader
  import opened Predicates

  // ---------- Digits ----------

  /** Digits without a leading zero that read as the number. */
  predicate DigitsOf(w: string, n: nat) {
    ReadDecimal(w) == Some(n) && (|w| > 1 ==> w[0] != '0')
  }

  lemma {:induction false} DecimalIsDigits(n: nat)
    ensures DigitsOf(Decimal(n), n) && Decimal(n) != ""
    ensures n > 0 ==> Decimal(n)[0] != '0'
    ensures forall i :: 0 <= i < |Decimal(n)| ==> '0' <= Decimal(n)[i] <= '9'
  {
    DecimalReads(n);
    if n >= 10 {
      DecimalIsDigits(n / 10);
    }
  }

  lemma {:induction false} DigitsPositive(w: string, n: nat)
    requires ReadDecimal(w) == Some(n) && w[0] != '0'
    ensures n > 0
  {
    if |w| > 1 {
      DigitsPositive(w[..|w| - 1], ReadDecimal(w[..|w| - 1]).value);
    }
  }

  lemma {:induction false} DigitsAreDecimal(w: string, n: nat)
    requires DigitsOf(w, n)
    ensures w == Decimal(n)
  {
    var k := |w| - 1;
    if k == 0 {
      assert w == [w[0]];
    } else {
      var m := ReadDecimal(w[..k]).value;
      DigitsPositive(w[..k], m);
      DigitsAreDecimal(w[..k], m);
      assert n / 10 == m && n % 10 == w[k] as int - '0' as int;
      assert w == w[..k] + [w[k]];
    }
  }

  /** The text a value is searched by or for. */
  predicate TextOf(v: Value, w: string) {
    match v
    case Null => false
    case Str(s) => w == s
    case Int(n) => if n >= 0 then DigitsOf(w, n) else w != "" && w[0] == '-' && DigitsOf(w[1..], -n)
  }

  lemma TextIsFormat(v: Value, w: string)
    requires TextOf(v, w)
    ensures Format(v) == w
  {
    match v
    case Str(_) =>
    case Int(n) =>
      if n >= 0 {
        DigitsAreDecimal(w, n);
      } else {
        DigitsAreDecimal(w[1..], -n);
        assert w == "-" + w[1..];
      }
  }

  /** Every value but NULL has such a text, an integer one of digits and a sign, free of wildcards. */
  lemma EveryValueHasText(v: Value) returns (w: string)
    requires !v.Null?
    ensures TextOf(v, w) && (v.Int? ==> WildcardFree(w))
  {
    w := Format(v);
    if v.Int? {
      DecimalIsDigits(if v.n >= 0 then v.n else -v.n);
      if v.n < 0 {
        assert w[1..] == Decimal(-v.n);
      }
    }
  }

  // ---------- One predicate ----------

  predicate Searches(p: Predicate) {
    (p.operator.Like? || p.operator.Contains?) && |p.values| == 1
  }

  /** True where the text of the row contains the given one, negated under Not, unknown on NULL. */
  ghost predicate Finds(t: Tri, p: Predicate, w: string, cell: Value) {
    match cell
    case Null => t == Unknown
    case _ => forall text :: TextOf(cell, text) ==> t == (if Substring(w, text) != p.negated then True else False)
  }

  lemma SearchMeaning(p: Predicate, row: (string, string) -> Value, w: string)
    requires Complete(p) && Searches(p) && TextOf(p.values[0], w) && WildcardFree(w)
    ensures Printed(p, row) == Meaning(p, row)
    ensures Finds(Printed(p, row), p, w, row(p.field.source, p.field.column))
  {
    hide LikeMatch, Substring, TextOf, WildcardFree, Format;
    TextIsFormat(p.values[0], w);
    TextIsNotNull(p.values[0], w);
    var cell := row(p.field.source, p.field.column);
    assert "%" + w + "%" == "%" + (w + "%");
    forall text | !cell.Null? && TextOf(cell, text)
      ensures LikeMatch(Format(cell), "%" + w + "%") <==> Substring(w, text)
    {
      TextIsFormat(cell, text);
      AnyThenLiteral(text, w);
    }
    PatternText(w);
  }

  lemma PatternText(w: string)
    ensures Format(Str("%" + w + "%")) == "%" + w + "%"
  {
  }

  lemma TextIsNotNull(v: Value, w: string)
    requires TextOf(v, w)
    ensures !v.Null?
  {
  }

  // ---------- The printed clause ----------

  /**
    A single accepted LIKE or CONTAINS, for a text without wildcards or an integer: the
    printed WHERE clause with its parameters finds exactly the rows whose text contains it.
   */
  lemma SearchClauseMeaning(g: Graph, p: Predicate, row: (string, string) -> Value, w: string)
    requires Normalize(g).Ok? && g.predicates == [p]
    requires Structured(p) && p.field.column != "*" && Searches(p) && TextOf(p.values[0], w) && WildcardFree(w)
    ensures Conditions(g.predicates).Ok? && Generate(g).Ok?
    ensures var t := EvalClause(Conditions(g.predicates).value.sql, Generate(g).value.parameters, row);
            t.Some? && Finds(t.value, p, w, row(p.field.source, p.field.column))
  {
    hide Normalize, Generate, Conditions, EvalClause, Structured, TextOf, WildcardFree, Finds, Printed, WhereText;
    WhereClauseMeaning(g, row);
    assert g.predicates[0] == p;
    SearchMeaning(p, row, w);
    assert g.predicates[1..] == [];
    NeutralTrue(Printed(p, row));
    SingleClause(p, g.predicates, row);
  }

  lemma SingleClause(p: Predicate, ps: seq<Predicate>, row: (string, string) -> Value)
    requires ps == [p] && Complete(p)
    ensures AllPrinted(ps, row) == Printed(p, row)
  {
    hide Printed;
    assert ps[1..] == [];
    NeutralTrue(Printed(p, row));
  }
}
