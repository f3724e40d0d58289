/** Types shared by every part of the model. */
module Common {

  /** A strictly positive machine constant whose value the model leaves open. */
  type Positive = x: int | 0 < x witness 1

  datatype Option<+T> = None | Some(value: T)

  /** Two steps of a queue law make one: what left and what is left equals what there was and what joined. */
  lemma Splice<T>(a: seq<T>, b: seq<T>, c: seq<T>, d: seq<T>, x: seq<T>, y: seq<T>, z: seq<T>)
    requires a + b == c + d && x + y == b + z
    ensures (a + x) + y == c + (d + z)
  {
    assert (a + x) + y == a + (x + y);
    assert a + (b + z) == (a + b) + z;
  }
}
