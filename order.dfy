/**
 * Swift's `<` on the `Comparable` types the range validators use, and the
 * facts about it that make `>=` and `<=` behave as a total order.
 */
module Order {
  import opened Values

  /** `String` comparison, lexicographic on characters. */
  predicate StringLess(a: string, b: string)
    decreases |a|
  {
    |b| > 0 && (|a| == 0 || a[0] < b[0] || (a[0] == b[0] && StringLess(a[1..], b[1..])))
  }

  /** `Decimal` comparison: NaN sorts before every finite decimal. */
  predicate DecimalLess(a: Decimal, b: Decimal) {
    match (a, b)
    case (NaN, Finite(_)) => true
    case (Finite(x), Finite(y)) => x < y
    case _ => false
  }

  /** `a < b` for two values of one `Comparable` type; false across types. */
  predicate Less(a: Value, b: Value) {
    match (a, b)
    case (VStr(x), VStr(y)) => StringLess(x, y)
    case (VDec(x), VDec(y)) => DecimalLess(x, y)
    case (VDate(x), VDate(y)) => x < y
    case (VInt(x), VInt(y)) => x < y
    case _ => false
  }

  /** `a >= b`, which `Comparable` derives as `!(a < b)`. */
  predicate GreaterOrEqual(a: Value, b: Value) {
    !Less(a, b)
  }

  /** `a <= b`, which `Comparable` derives as `!(b < a)`. */
  predicate LessOrEqual(a: Value, b: Value) {
    !Less(b, a)
  }

  lemma {:induction false} StringLessIrreflexive(a: string)
    ensures !StringLess(a, a)
    decreases |a|
  {
    if |a| > 0 {
      StringLessIrreflexive(a[1..]);
    }
  }

  lemma {:induction false} StringLessTransitive(a: string, b: string, c: string)
    requires StringLess(a, b) && StringLess(b, c)
    ensures StringLess(a, c)
    decreases |a|
  {
    if |a| > 0 && a[0] == c[0] {
      StringLessTransitive(a[1..], b[1..], c[1..]);
    }
  }

  lemma {:induction false} StringLessTotal(a: string, b: string)
    ensures a == b || StringLess(a, b) || StringLess(b, a)
    decreases |a|
  {
    if |a| > 0 && |b| > 0 && a[0] == b[0] {
      StringLessTotal(a[1..], b[1..]);
      if a[1..] == b[1..] {
        assert a == [a[0]] + a[1..] && b == [b[0]] + b[1..];
      }
    }
  }

  lemma LessIrreflexive(a: Value)
    ensures !Less(a, a)
  {
    if a.VStr? {
      StringLessIrreflexive(a.str);
    }
  }

  lemma LessTransitive(a: Value, b: Value, c: Value)
    requires Less(a, b) && Less(b, c)
    ensures Less(a, c)
  {
    if a.VStr? {
      StringLessTransitive(a.str, b.str, c.str);
    }
  }

  /** Two values of one comparable type are equal or ordered one way. */
  lemma LessTotal(a: Value, b: Value)
    requires IsComparable(a) && SameType(a, b)
    ensures a == b || Less(a, b) || Less(b, a)
  {
    if a.VStr? {
      StringLessTotal(a.str, b.str);
    }
  }

  lemma LessOrEqualReflexive(a: Value)
    ensures LessOrEqual(a, a) && GreaterOrEqual(a, a)
  {
    LessIrreflexive(a);
  }

  /** `a <= b` and `b <= c` give `a <= c` within one comparable type. */
  lemma LessOrEqualTransitive(a: Value, b: Value, c: Value)
    requires IsComparable(a) && SameType(a, b) && SameType(b, c)
    requires LessOrEqual(a, b) && LessOrEqual(b, c)
    ensures LessOrEqual(a, c)
  {
    if Less(c, a) {
      LessTotal(a, b);
      LessTotal(b, c);
      if a == b || b == c {
        // then c < a = b or b = c < a contradicts a <= b or b <= c directly
      } else {
        LessTransitive(a, b, c);
        LessTransitive(a, c, a);
        LessIrreflexive(a);
      }
    }
  }
}
