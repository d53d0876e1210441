/** The order Swift's `String <` imposes on meeting names, taken here as the
    lexicographic order on sequences of characters. */
module StringOrder {

  /** Strict lexicographic order: a proper prefix comes first, otherwise the
      first differing character decides. */
  predicate Less(a: string, b: string)
    decreases |a|
  {
    if a == [] then b != []
    else if b == [] then false
    else a[0] < b[0] || (a[0] == b[0] && Less(a[1..], b[1..]))
  }

  /** `a` may stand before `b` in a sequence sorted with `<` as the
      "is in increasing order" relation: `b` is not strictly smaller. */
  predicate LessEq(a: string, b: string) {
    !Less(b, a)
  }

  lemma {:induction false} LessIrreflexive(a: string)
    ensures !Less(a, a)
    decreases |a|
  {
    if a != [] {
      LessIrreflexive(a[1..]);
    }
  }

  lemma {:induction false} LessTransitive(a: string, b: string, c: string)
    requires Less(a, b) && Less(b, c)
    ensures Less(a, c)
    decreases |a|
  {
    if a != [] && b != [] && c != [] && a[0] == b[0] && b[0] == c[0] {
      LessTransitive(a[1..], b[1..], c[1..]);
    }
  }

  lemma {:induction false} LessTrichotomy(a: string, b: string)
    ensures Less(a, b) || a == b || Less(b, a)
    decreases |a|
  {
    if a != [] && b != [] && a[0] == b[0] {
      LessTrichotomy(a[1..], b[1..]);
      if a[1..] == b[1..] {
        assert a == [a[0]] + a[1..] && b == [b[0]] + b[1..];
      }
    }
  }

  lemma LessAsymmetric(a: string, b: string)
    requires Less(a, b)
    ensures !Less(b, a)
  {
    if Less(b, a) {
      LessTransitive(a, b, a);
      LessIrreflexive(a);
    }
  }

  /** Strictly smaller implies may-stand-before. */
  lemma LessImpliesLessEq(a: string, b: string)
    requires Less(a, b)
    ensures LessEq(a, b)
  {
    LessAsymmetric(a, b);
  }

  lemma LessEqReflexive(a: string)
    ensures LessEq(a, a)
  {
    LessIrreflexive(a);
  }

  lemma LessEqTransitive(a: string, b: string, c: string)
    requires LessEq(a, b) && LessEq(b, c)
    ensures LessEq(a, c)
  {
    LessTrichotomy(a, b);
    LessTrichotomy(b, c);
    if Less(c, a) {
      if Less(a, b) {
        LessTransitive(c, a, b);
      }
    }
  }

  lemma LessEqTotal(a: string, b: string)
    ensures LessEq(a, b) || LessEq(b, a)
  {
    LessTrichotomy(a, b);
    if Less(a, b) {
      LessAsymmetric(a, b);
    } else if a == b {
      LessIrreflexive(a);
    }
  }
}
