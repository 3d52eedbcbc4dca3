/**
 * The order Rust's `String::cmp` uses: lexicographic, element by element,
 * a proper prefix coming first. Rust compares the UTF-8 bytes; because UTF-8
 * preserves code-point order, comparing `char`s (Unicode scalar values) one by
 * one gives the same answer.
 */
module LexOrder {

  /** `a` sorts strictly before `b`. */
  predicate LexLess(a: string, b: string)
    decreases |a|
  {
    if |a| == 0 then |b| > 0
    else if |b| == 0 then false
    else if a[0] != b[0] then a[0] < b[0]
    else LexLess(a[1..], b[1..])
  }

  /** `a` sorts before `b` or equals it (`a.cmp(b) != Greater`). */
  predicate LexLeq(a: string, b: string)
  {
    a == b || LexLess(a, b)
  }

  lemma {:induction false} LexLessIrreflexive(a: string)
    ensures !LexLess(a, a)
  {
    if |a| > 0 {
      LexLessIrreflexive(a[1..]);
    }
  }

  lemma {:induction false} LexLessAsymmetric(a: string, b: string)
    ensures LexLess(a, b) ==> !LexLess(b, a)
  {
    if |a| > 0 && |b| > 0 && a[0] == b[0] {
      LexLessAsymmetric(a[1..], b[1..]);
    }
  }

  lemma {:induction false} LexLessTransitive(a: string, b: string, c: string)
    requires LexLess(a, b) && LexLess(b, c)
    ensures LexLess(a, c)
  {
    if |a| > 0 && a[0] == b[0] && b[0] == c[0] {
      LexLessTransitive(a[1..], b[1..], c[1..]);
    }
  }

  /** Two different strings are always ordered one way or the other. */
  lemma {:induction false} LexLessTotal(a: string, b: string)
    requires a != b
    ensures LexLess(a, b) || LexLess(b, a)
  {
    if |a| > 0 && |b| > 0 && a[0] == b[0] {
      assert a == [a[0]] + a[1..] && b == [b[0]] + b[1..];
      LexLessTotal(a[1..], b[1..]);
    }
  }

  /** `LexLeq` is a total order: reflexive, antisymmetric, transitive and total. */
  lemma LexLeqTotalOrder(a: string, b: string, c: string)
    ensures LexLeq(a, a)
    ensures LexLeq(a, b) && LexLeq(b, a) ==> a == b
    ensures LexLeq(a, b) && LexLeq(b, c) ==> LexLeq(a, c)
    ensures LexLeq(a, b) || LexLeq(b, a)
  {
    LexLessAsymmetric(a, b);
    if LexLess(a, b) && LexLess(b, c) {
      LexLessTransitive(a, b, c);
    }
    if a != b {
      LexLessTotal(a, b);
    }
  }

  /** Transitivity of the non-strict order, the form the sorting proofs use. */
  lemma LexLeqTransitive(a: string, b: string, c: string)
    requires LexLeq(a, b) && LexLeq(b, c)
    ensures LexLeq(a, c)
  {
    LexLeqTotalOrder(a, b, c);
  }

  /** Failing `a <= b` means `b < a`. */
  lemma LexLeqNegation(a: string, b: string)
    requires !LexLeq(a, b)
    ensures LexLess(b, a)
  {
    LexLessTotal(a, b);
  }
}
