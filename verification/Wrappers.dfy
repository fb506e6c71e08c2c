/** A value that may be missing, and what an empty list is. */
module Wrappers {

  datatype Option<T> = None | Some(value: T)

  lemma EmptyExactly<A>(s: seq<A>)
    ensures s == [] <==> forall a :: a !in s
  {
    if s != [] {
      assert s[0] in s;
    }
  }
}
