/** Facts about the sizes of finite sets. */
module Sets {
  lemma {:induction false} SubsetIsSmaller<T>(a: set<T>, b: set<T>)
    requires a <= b
    ensures |a| <= |b|
  {
    if a != {} {
      var x :| x in a;
      SubsetIsSmaller(a - {x}, b - {x});
    }
  }

  lemma SameSizeSubset<T>(a: set<T>, b: set<T>)
    requires a <= b && |b| <= |a|
    ensures a == b
  {
    if x :| x in b && x !in a {
      SubsetIsSmaller(a + {x}, b);
    }
  }

  lemma SingleMember<T>(b: set<T>, x: T)
    requires x in b && |b| <= 1
    ensures b == {x}
  {
    SameSizeSubset({x}, b);
  }

  /** There is always a number that is not in the set. */
  lemma {:induction false} NumberOutside(b: set<nat>) returns (n: nat)
    ensures forall x :: x in b ==> x < n
  {
    if b == {} {
      n := 0;
    } else {
      var x :| x in b;
      var m := NumberOutside(b - {x});
      n := if m > x then m else x + 1;
      assert forall y :: y in b ==> y == x || y in b - {x};
    }
  }
}
