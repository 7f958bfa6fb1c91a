/** An optional value, and one fact about sequences that several proofs share. */
module Common {

  datatype Option<+T> = None | Some(value: T)

  lemma Shift<T>(a: seq<T>, b: seq<T>, c: seq<T>)
    ensures a + (b + c) == (a + b) + c
  {
  }
}
