/** Failure-carrying results shared by every component. */
module Common {

  datatype Option<+T> = None | Some(value: T)

  datatype Result<+T, +E> = Ok(value: T) | Err(error: E)

  lemma ConcatAssociative<T>(a: seq<T>, b: seq<T>, c: seq<T>)
    ensures a + (b + c) == a + b + c
  {}

  lemma ConcatRegrouped<T>(a: seq<T>, b: seq<T>, c: seq<T>, d: seq<T>, e: seq<T>)
    ensures a + b + c + d + e == a + (b + c + d + e) == a + (b + c + (d + e))
  {
    ConcatAssociative(a, b, c);
    ConcatAssociative(a, b + c, d);
    ConcatAssociative(a, b + c + d, e);
    ConcatAssociative(b + c, d, e);
  }

  /** The second outcome, unless the first failed. */
  function Then<A, B, E>(a: Result<A, E>, b: Result<B, E>): Result<B, E> {
    if a.Err? then Err(a.error) else b
  }
}
