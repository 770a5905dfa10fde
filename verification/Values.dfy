/** SQL values and their comparison: NULL, integers and texts. */
module Values {
  import Text

  datatype Value = Null | Int(n: int) | Str(s: string)

  /** A total order on the values that are not NULL: integers first, then texts in byte order. */
  predicate ValueLess(a: Value, b: Value) {
    match (a, b)
    case (Int(m), Int(n)) => m < n
    case (Int(_), Str(_)) => true
    case (Str(s), Str(t)) => Text.Less(s, t)
    case _ => false
  }

  lemma ValueTrichotomy(a: Value, b: Value)
    requires !a.Null? && !b.Null?
    ensures a == b || ValueLess(a, b) || ValueLess(b, a)
    ensures !(ValueLess(a, b) && ValueLess(b, a))
    ensures !ValueLess(a, a)
  {
    match (a, b)
    case (Str(s), Str(t)) =>
      Text.LessTrichotomy(s, t);
      Text.LessIrreflexive(s);
    case (Str(s), _) => Text.LessIrreflexive(s);
    case _ =>
  }
}
