/**
 The order in which the record store sorts TEXT values. The store's default
 (BINARY) collation compares two strings character by character, by code
 point, and a proper prefix sorts before the longer string.
 */
module TextOrder {

  /** `a` sorts at or before `b` under lexicographic code-point order. */
  predicate TextLeq(a: string, b: string)
  {
    a == [] || (b != [] && (a[0] < b[0] || (a[0] == b[0] && TextLeq(a[1..], b[1..]))))
  }

  lemma {:induction false} TextLeqReflexive(a: string)
    ensures TextLeq(a, a)
  {
    if a != [] {
      TextLeqReflexive(a[1..]);
    }
  }

  lemma {:induction false} TextLeqTotal(a: string, b: string)
    ensures TextLeq(a, b) || TextLeq(b, a)
  {
    if a != [] && b != [] && a[0] == b[0] {
      TextLeqTotal(a[1..], b[1..]);
    }
  }

  lemma {:induction false} TextLeqTransitive(a: string, b: string, c: string)
    requires TextLeq(a, b) && TextLeq(b, c)
    ensures TextLeq(a, c)
  {
    if a != [] && a[0] == b[0] && b[0] == c[0] {
      TextLeqTransitive(a[1..], b[1..], c[1..]);
    }
  }

  lemma {:induction false} TextLeqAntisymmetric(a: string, b: string)
    requires TextLeq(a, b) && TextLeq(b, a)
    ensures a == b
  {
    if a != [] && b != [] {
      TextLeqAntisymmetric(a[1..], b[1..]);
      assert a == [a[0]] + a[1..];
      assert b == [b[0]] + b[1..];
    }
  }

  /**
   Comparing two strings that begin with prefixes of the same length: the
   prefixes decide unless they are equal, and then the rest decides.
   */
  lemma {:induction false} TextLeqConcat(a1: string, a2: string, b1: string, b2: string)
    requires |a1| == |b1|
    ensures TextLeq(a1 + a2, b1 + b2) <==> (a1 != b1 && TextLeq(a1, b1)) || (a1 == b1 && TextLeq(a2, b2))
  {
    if a1 != [] {
      assert (a1 + a2)[0] == a1[0] && (b1 + b2)[0] == b1[0];
      assert (a1 + a2)[1..] == a1[1..] + a2;
      assert (b1 + b2)[1..] == b1[1..] + b2;
      TextLeqConcat(a1[1..], a2, b1[1..], b2);
      if a1[0] == b1[0] {
        assert a1 == b1 <==> a1[1..] == b1[1..] by {
          assert a1 == [a1[0]] + a1[1..];
          assert b1 == [b1[0]] + b1[1..];
        }
      }
    } else {
      assert a1 + a2 == a2 && b1 + b2 == b2;
    }
  }
}
