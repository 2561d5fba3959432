/** Definitions and cardinality facts shared by the component models. */
module Common {

  datatype Option<+T> = None | Some(value: T)

  /** A subset has no more elements than the set it is taken from. */
  lemma SubsetSize<T>(a: set<T>, b: set<T>)
    requires a <= b
    ensures |a| <= |b|
    ensures |a| == |b| ==> a == b
  {
    assert b == a + (b - a);
  }

  /** An injective image has as many elements as its source. */
  lemma {:induction false} ImageSize<A, B>(a: set<A>, f: A -> B, b: set<B>)
    requires forall x, y :: x in a && y in a && f(x) == f(y) ==> x == y
    requires b == set x | x in a :: f(x)
    ensures |b| == |a|
  {
    if a == {} {
      assert b == {};
    } else {
      var x :| x in a;
      var rest := set y | y in a - {x} :: f(y);
      ImageSize(a - {x}, f, rest);
      assert f(x) !in rest;
      assert b == rest + {f(x)};
    }
  }
}
